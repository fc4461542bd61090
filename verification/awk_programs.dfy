/** What the masking lexer does to a whole source: which quotes open an awk program, that exactly the
    text of those programs is blanked, and when shell text outside quotes is left alone. */
module AwkPrograms {
  import opened AwkMask

  // ----- which quotes open a program -----

  /** An awk command that starts at p and ends before e: at the start of the line or after a separator,
      then white space, then the word awk. */
  predicate IsCommand(line: string, p: nat, e: nat) {
    && 3 <= e && AwkAt(line, e - 3)
    && ((p == 0 && AllSpace(line, 0, e - 3)) || (p < e - 3 && p < |line| && IsSeparator(line[p]) && AllSpace(line, p + 1, e - 3)))
  }

  predicate AllSpace(line: string, start: nat, end: nat) {
    forall i :: start <= i < end && i < |line| ==> IsSpace(line[i])
  }

  /** e is the end of the first command from `cursor` on. */
  ghost predicate FirstCommand(line: string, cursor: nat, e: nat) {
    exists p :: cursor <= p <= |line| && IsCommand(line, p, e) && NoCommand(line, cursor, p)
  }

  ghost predicate NoCommand(line: string, start: nat, end: nat) {
    forall p, e :: start <= p < end ==> !IsCommand(line, p, e)
  }

  lemma CommandAtExactly(line: string, p: nat, e: nat)
    requires p <= |line| && e > 0
    ensures CommandAt(line, p) == e <==> IsCommand(line, p, e)
  {
    hide IsSpace;
    assert forall c :: IsSeparator(c) ==> !IsSpace(c) by { SeparatorsAreNoSpace(); }
    assert !IsSpace('a') by { LetterIsNoSpace(); }
  }

  lemma SeparatorsAreNoSpace()
    ensures forall c :: IsSeparator(c) ==> !IsSpace(c)
  {
  }

  lemma LetterIsNoSpace()
    ensures !IsSpace('a')
  {
  }

  /** The search finds the first command, and fails only when there is none. */
  lemma {:induction false} SearchFindsFirst(line: string, cursor: nat, e: nat)
    requires cursor <= |line| && e > 0
    ensures CommandEnd(line, cursor) == e <==> FirstCommand(line, cursor, e)
    decreases |line| - cursor
  {
    hide CommandAt, IsCommand;
    forall x: nat | x > 0 ensures CommandAt(line, cursor) == x <==> IsCommand(line, cursor, x) { CommandAtExactly(line, cursor, x); }
    if CommandAt(line, cursor) > 0 {
      assert IsCommand(line, cursor, CommandAt(line, cursor));
      if FirstCommand(line, cursor, e) {
        var p :| cursor <= p <= |line| && IsCommand(line, p, e) && NoCommand(line, cursor, p);
        assert p == cursor;
      }
    } else {
      forall x: nat ensures !IsCommand(line, cursor, x) { CommandEndsPositive(line, cursor, x); }
      if cursor < |line| {
        SearchFindsFirst(line, cursor + 1, e);
        FirstFromNext(line, cursor, e);
      }
    }
  }

  lemma CommandEndsPositive(line: string, p: nat, e: nat)
    ensures IsCommand(line, p, e) ==> e > 0
  {
  }

  lemma FirstFromNext(line: string, cursor: nat, e: nat)
    requires cursor < |line| && forall x: nat :: !IsCommand(line, cursor, x)
    ensures FirstCommand(line, cursor, e) <==> FirstCommand(line, cursor + 1, e)
  {
    hide IsCommand;
    if FirstCommand(line, cursor, e) {
      var p :| cursor <= p <= |line| && IsCommand(line, p, e) && NoCommand(line, cursor, p);
      assert NoCommand(line, cursor + 1, p);
    }
    if FirstCommand(line, cursor + 1, e) {
      var p :| cursor + 1 <= p <= |line| && IsCommand(line, p, e) && NoCommand(line, cursor + 1, p);
      assert NoCommand(line, cursor, p);
    }
  }

  ghost predicate OptionsStart(line: string, cursor: nat, waiting: bool, start: nat) {
    if waiting then start == cursor else FirstCommand(line, cursor, start)
  }

  predicate FirstQuote(line: string, start: nat, q: nat) {
    start <= q < |line| && line[q] == QUOTE && NoQuote(line, start, q)
  }

  /** The next quote opens a program exactly when it is the first after the options of the first awk
      command (or of one still waiting), only options stand in between, and it does not quote the value
      of an option. */
  lemma ProgramOpensExactlyWhen(lexer: Lexer, line: string, cursor: nat, waiting: bool, o: nat)
    requires cursor < |line|
    ensures var m := NextMove(lexer, line, cursor, waiting);
      (m.OpenProgram? || m.ClosedProgram?) && m.opening == o <==>
      exists start: nat :: OptionsStart(line, cursor, waiting, start) && FirstQuote(line, start, o) && cursor <= o
        && lexer.onlyOptions(line[start..o]) && !lexer.optionValue(line[cursor..o])
  {
    hide CommandEnd, FirstCommand, Continues;
    forall e: nat | e > 0 ensures CommandEnd(line, cursor) == e <==> FirstCommand(line, cursor, e) {
      SearchFindsFirst(line, cursor, e);
    }
    assert !FirstCommand(line, cursor, 0) by { NoEmptyCommand(line, cursor); }
    var start := if waiting then cursor else CommandEnd(line, cursor);
    if waiting || start > 0 {
      assert OptionsStart(line, cursor, waiting, start);
      var q := FindQuote(line, start);
      assert q < |line| ==> FirstQuote(line, start, q);
    }
  }

  lemma NoEmptyCommand(line: string, cursor: nat)
    ensures !FirstCommand(line, cursor, 0)
  {
  }

  // ----- the programs of a source -----

  /** The opening quotes of the programs the scan of a line finds from `cursor` on. */
  function LineOpenings(lexer: Lexer, line: string, cursor: nat, waiting: bool): (opens: set<nat>)
    requires cursor <= |line|
    ensures forall o :: o in opens ==> cursor <= o < |line| && line[o] == QUOTE
    decreases |line| - cursor
  {
    if cursor == |line| then {}
    else
      match NextMove(lexer, line, cursor, waiting)
      case Stop(_) => {}
      case OpenProgram(opening) => {opening}
      case OptionValue(_, closing) => LineOpenings(lexer, line, closing + 1, true)
      case ClosedProgram(opening, closing) => {opening} + LineOpenings(lexer, line, closing + 1, false)
  }

  function StateOpenings(lexer: Lexer, line: string, state: State): (opens: set<nat>)
    ensures forall o :: o in opens ==> o < |line| && line[o] == QUOTE
  {
    if !state.inside then LineOpenings(lexer, line, 0, state.waiting)
    else
      var closing := FindQuote(line, 0);
      if closing == |line| then {} else LineOpenings(lexer, line, closing + 1, state.waiting)
  }

  function Shifted(opens: set<nat>, n: nat): set<nat> { set o | o in opens :: o + n }

  function OpeningsFrom(lexer: Lexer, source: string, state: State): (opens: set<nat>)
    ensures forall o :: o in opens ==> o < |source| && source[o] == QUOTE
    decreases |source|
  {
    if source == "" then {}
    else
      var n := LineLength(source);
      var rest := OpeningsFrom(lexer, source[n..], MaskLine(lexer, source[..n], state).state);
      StateOpenings(lexer, source[..n], state) + Shifted(rest, n)
  }

  /** The quotes of the source that open an awk program. */
  function Openings(lexer: Lexer, source: string): (opens: set<nat>)
    ensures forall o :: o in opens ==> o < |source| && source[o] == QUOTE
  {
    OpeningsFrom(lexer, source, State(false, false))
  }

  /** The last quote before i opens a program; or there is none, and a program was open before the text. */
  predicate Opened(s: string, opens: set<nat>, inside: bool, i: nat) {
    (exists o :: o in opens && o < i && NoQuote(s, o + 1, i)) || (inside && NoQuote(s, 0, i))
  }

  /** Position i is text of a program: a program runs from its opening quote to the next quote, over any
      number of lines. */
  predicate InProgram(s: string, opens: set<nat>, inside: bool, i: nat)
    requires i < |s|
  {
    s[i] != QUOTE && Opened(s, opens, inside, i)
  }

  function MaskedChar(s: string, opens: set<nat>, inside: bool, i: nat): char
    requires i < |s|
  {
    if InProgram(s, opens, inside, i) && !IsLineEnd(s[i]) then ' ' else s[i]
  }

  /** `after` is `before` with the text of the programs blanked, line ends excepted, and nothing else. */
  predicate Blanks(before: string, after: string, opens: set<nat>, inside: bool) {
    |before| == |after| && forall i :: 0 <= i < |before| ==> after[i] == MaskedChar(before, opens, inside, i)
  }

  // ----- one line -----

  predicate BlanksFrom(line: string, after: string, opens: set<nat>, cursor: nat) {
    |line| == |after| && forall i :: cursor <= i < |line| ==> after[i] == MaskedChar(line, opens, false, i)
  }

  lemma NothingOpened(line: string, chars: string, cursor: nat)
    requires Agree(line, chars, cursor, |line|)
    ensures BlanksFrom(line, chars, {}, cursor) && !Opened(line, {}, false, |line|)
  {
  }

  lemma OpenToTheEnd(line: string, chars: string, cursor: nat, opening: nat)
    requires Agree(line, chars, cursor, |line|) && cursor <= opening < |line| && NoQuote(line, opening + 1, |line|)
    ensures BlanksFrom(line, Masked(chars, opening + 1, |line|), {opening}, cursor)
    ensures Opened(line, {opening}, false, |line|)
  {
    assert opening in {opening};
    forall i | opening < i < |line| ensures Opened(line, {opening}, false, i) { assert NoQuote(line, opening + 1, i); }
  }

  /** Past a closing quote, what was opened before it does not count. */
  lemma ClosedIsClosed(line: string, opening: nat, closing: nat, rest: set<nat>, i: nat)
    requires opening < closing < i && closing < |line| && line[closing] == QUOTE
    ensures Opened(line, {opening} + rest, false, i) <==> Opened(line, rest, false, i)
  {
    if Opened(line, {opening} + rest, false, i) {
      var o :| o in {opening} + rest && o < i && NoQuote(line, o + 1, i);
      assert o in rest;
    }
  }

  lemma ClosedProgramBlanks(line: string, masked: string, after: string, rest: set<nat>, cursor: nat, opening: nat, closing: nat)
    requires cursor <= opening < closing < |line| && line[opening] == QUOTE && line[closing] == QUOTE
    requires NoQuote(line, opening + 1, closing) && forall o :: o in rest ==> o > closing
    requires |masked| == |line| && Agree(line, masked, cursor, opening + 1) && masked[closing] == QUOTE
    requires forall i :: opening < i < closing ==> masked[i] == if IsLineEnd(line[i]) then line[i] else ' '
    requires Agree(masked, after, 0, closing + 1) && BlanksFrom(line, after, rest, closing + 1)
    ensures BlanksFrom(line, after, {opening} + rest, cursor)
  {
    var opens := {opening} + rest;
    forall i | cursor <= i < |line| ensures after[i] == MaskedChar(line, opens, false, i) {
      if i <= opening {
        assert !Opened(line, opens, false, i);
      } else if i < closing {
        assert opening in opens && NoQuote(line, opening + 1, i);
        assert Opened(line, opens, false, i);
      } else if i > closing {
        ClosedIsClosed(line, opening, closing, rest, i);
      }
    }
  }

  lemma MaskedSegment(line: string, chars: string, opening: nat, closing: nat)
    requires opening < closing < |line| && Agree(line, chars, opening, |line|)
    ensures var masked := Masked(chars, opening + 1, closing);
      && masked[closing] == line[closing]
      && forall i :: opening < i < closing ==> masked[i] == if IsLineEnd(line[i]) then line[i] else ' '
  {
  }

  /** From the cursor on the scan blanks exactly the programs, and it ends inside one exactly when the
      last quote of the line opened it. */
  lemma {:induction false} ScanBlanks(lexer: Lexer, line: string, chars: string, cursor: nat, waiting: bool)
    requires cursor <= |line| && |chars| == |line| && Agree(line, chars, Back(cursor), |line|)
    ensures var r, opens := Scan(lexer, line, chars, cursor, waiting), LineOpenings(lexer, line, cursor, waiting);
      BlanksFrom(line, r.text, opens, cursor) && (r.state.inside <==> Opened(line, opens, false, |line|))
    decreases |line| - cursor
  {
    hide NextMove, NoQuote, Agree, Masked, BlanksFrom, Opened;
    AgreeLess(line, chars, Back(cursor), |line|, cursor, |line|);
    NothingOpened(line, chars, cursor);
    if cursor < |line| {
      match NextMove(lexer, line, cursor, waiting)
      case Stop(_) =>
      case OpenProgram(opening) => OpenToTheEnd(line, chars, cursor, opening);
      case OptionValue(opening, closing) =>
        AgreeLess(line, chars, Back(cursor), |line|, closing, |line|);
        ScanBlanks(lexer, line, chars, closing + 1, true);
        ScanKeepsBefore(lexer, line, chars, closing + 1, true);
        PassedValueStays(line, chars, Scan(lexer, line, chars, closing + 1, true).text,
                         LineOpenings(lexer, line, closing + 1, true), cursor, closing);
      case ClosedProgram(opening, closing) =>
        var masked := Masked(chars, opening + 1, closing);
        ClosedProgramInResult(lexer, line, chars, cursor, waiting);
        ScanBlanks(lexer, line, masked, closing + 1, false);
        ScanKeepsBefore(lexer, line, masked, closing + 1, false);
        ProgramThenRest(line, chars, Scan(lexer, line, masked, closing + 1, false).text,
                        LineOpenings(lexer, line, closing + 1, false), cursor, opening, closing);
    }
  }

  lemma ProgramThenRest(line: string, chars: string, after: string, rest: set<nat>, cursor: nat, opening: nat, closing: nat)
    requires |chars| == |line| && Agree(line, chars, cursor, |line|) && cursor <= opening < closing < |line|
    requires line[opening] == QUOTE && line[closing] == QUOTE && NoQuote(line, opening + 1, closing)
    requires forall o :: o in rest ==> o > closing
    requires Agree(Masked(chars, opening + 1, closing), after, 0, closing + 1) && BlanksFrom(line, after, rest, closing + 1)
    ensures BlanksFrom(line, after, {opening} + rest, cursor)
    ensures Opened(line, {opening} + rest, false, |line|) <==> Opened(line, rest, false, |line|)
  {
    hide NoQuote, Agree, Masked, BlanksFrom, Opened;
    var masked := Masked(chars, opening + 1, closing);
    AgreeLess(line, chars, cursor, |line|, opening, |line|);
    MaskedSegment(line, chars, opening, closing);
    MaskedIsBlank(chars, opening + 1, closing);
    AgreeLess(chars, masked, 0, opening + 1, cursor, opening + 1);
    AgreeLess(line, chars, cursor, |line|, cursor, opening + 1);
    AgreeTrans(line, chars, masked, cursor, opening + 1);
    ClosedProgramBlanks(line, masked, after, rest, cursor, opening, closing);
    ClosedIsClosed(line, opening, closing, rest, |line|);
  }

  lemma PassedValueStays(line: string, chars: string, after: string, opens: set<nat>, cursor: nat, closing: nat)
    requires cursor <= closing < |line| && Agree(line, chars, cursor, |line|) && Agree(chars, after, 0, closing + 1)
    requires BlanksFrom(line, after, opens, closing + 1) && forall o :: o in opens ==> o > closing
    ensures BlanksFrom(line, after, opens, cursor)
  {
    forall i | cursor <= i < |line| ensures after[i] == MaskedChar(line, opens, false, i) {
      assert i <= closing ==> !Opened(line, opens, false, i);
    }
  }

  /** A line from any state: exactly the programs are blanked, and the state says whether one is open. */
  lemma LineBlanks(lexer: Lexer, line: string, state: State)
    ensures var r, opens := MaskLine(lexer, line, state), StateOpenings(lexer, line, state);
      Blanks(line, r.text, opens, state.inside) && (r.state.inside <==> Opened(line, opens, state.inside, |line|))
  {
    hide Scan, NoQuote, Agree, Masked, FindQuote, Opened, LineOpenings;
    if !state.inside {
      AgreeItself(line, 0, |line|);
      ScanBlanks(lexer, line, line, 0, state.waiting);
    } else {
      var closing := FindQuote(line, 0);
      assert NoQuote(line, 0, closing) by { FindQuoteIsFirst(line, 0); }
      if closing == |line| {
        WholeLineInside(line);
      } else {
        var chars := Masked(line, 0, closing);
        MaskedIsBlank(line, 0, closing);
        ScanBlanks(lexer, line, chars, closing + 1, state.waiting);
        ScanKeepsBefore(lexer, line, chars, closing + 1, state.waiting);
        InsideThenRest(line, MaskLine(lexer, line, state).text, StateOpenings(lexer, line, state), closing);
      }
    }
  }

  lemma FindQuoteIsFirst(line: string, start: nat)
    requires start <= |line|
    ensures NoQuote(line, start, FindQuote(line, start))
  {
  }

  lemma WholeLineInside(line: string)
    requires NoQuote(line, 0, |line|)
    ensures Blanks(line, Masked(line, 0, |line|), {}, true) && Opened(line, {}, true, |line|)
  {
    forall i | 0 <= i < |line| ensures Opened(line, {}, true, i) { assert NoQuote(line, 0, i); }
  }

  lemma InsideThenRest(line: string, after: string, opens: set<nat>, closing: nat)
    requires closing < |line| && line[closing] == QUOTE && NoQuote(line, 0, closing)
    requires forall o :: o in opens ==> o > closing
    requires Agree(Masked(line, 0, closing), after, 0, closing + 1) && BlanksFrom(line, after, opens, closing + 1)
    ensures Blanks(line, after, opens, true)
    ensures Opened(line, opens, true, |line|) <==> Opened(line, opens, false, |line|)
  {
    forall i | 0 <= i < |line| ensures after[i] == MaskedChar(line, opens, true, i) {
      if i < closing {
        assert NoQuote(line, 0, i);
        assert Opened(line, opens, true, i);
      } else {
        assert i > closing ==> !NoQuote(line, 0, i);
      }
    }
  }

  // ----- the whole source -----

  lemma OpenedInFirst(a: string, b: string, opens: set<nat>, later: set<nat>, inside: bool, i: nat)
    requires i <= |a|
    ensures Opened(a + b, opens + Shifted(later, |a|), inside, i) <==> Opened(a, opens, inside, i)
  {
    var s, all := a + b, opens + Shifted(later, |a|);
    assert forall k :: 0 <= k < |a| ==> s[k] == a[k];
    forall o | o in all && o < i ensures o in opens && (NoQuote(s, o + 1, i) <==> NoQuote(a, o + 1, i)) {}
    forall o | o in opens && o < i ensures o in all && (NoQuote(s, o + 1, i) <==> NoQuote(a, o + 1, i)) {}
    assert NoQuote(s, 0, i) <==> NoQuote(a, 0, i);
  }

  /** In the second part a program is open exactly when its own quotes say so, or none stands before and
      one was open at the end of the first part. */
  lemma OpenedInSecond(a: string, b: string, opens: set<nat>, later: set<nat>, inside: bool, k: nat)
    requires k <= |b| && forall o :: o in opens ==> o < |a|
    ensures Opened(a + b, opens + Shifted(later, |a|), inside, |a| + k) <==>
      Opened(b, later, Opened(a, opens, inside, |a|), k)
  {
    hide Opened;
    if Opened(a + b, opens + Shifted(later, |a|), inside, |a| + k) {
      OpenedInSecondForward(a, b, opens, later, inside, k);
    }
    if Opened(b, later, Opened(a, opens, inside, |a|), k) {
      OpenedInSecondBackward(a, b, opens, later, inside, k);
    }
  }

  lemma NoQuoteAcross(a: string, b: string, start: nat, k: nat)
    requires start <= |a| && k <= |b|
    ensures NoQuote(a + b, start, |a| + k) <==> NoQuote(a, start, |a|) && NoQuote(b, 0, k)
  {
    var s := a + b;
    assert forall i :: 0 <= i < |a| ==> s[i] == a[i];
    assert forall i :: 0 <= i < |b| ==> s[|a| + i] == b[i];
    if NoQuote(s, start, |a| + k) {
      forall i | 0 <= i < k ensures b[i] != QUOTE { assert s[|a| + i] == b[i]; }
    }
  }

  lemma NoQuoteWithin(a: string, b: string, start: nat, k: nat)
    requires start <= k <= |b|
    ensures NoQuote(a + b, |a| + start, |a| + k) <==> NoQuote(b, start, k)
  {
    var s := a + b;
    assert forall i :: 0 <= i < |b| ==> s[|a| + i] == b[i];
    if NoQuote(s, |a| + start, |a| + k) {
      forall i | start <= i < k ensures b[i] != QUOTE { assert s[|a| + i] == b[i]; }
    }
  }

  lemma OpenedInSecondForward(a: string, b: string, opens: set<nat>, later: set<nat>, inside: bool, k: nat)
    requires k <= |b| && forall o :: o in opens ==> o < |a|
    requires Opened(a + b, opens + Shifted(later, |a|), inside, |a| + k)
    ensures Opened(b, later, Opened(a, opens, inside, |a|), k)
  {
    hide NoQuote;
    var s, all := a + b, opens + Shifted(later, |a|);
    NoQuoteAcross(a, b, 0, k);
    if exists o :: o in all && o < |a| + k && NoQuote(s, o + 1, |a| + k) {
      var o :| o in all && o < |a| + k && NoQuote(s, o + 1, |a| + k);
      if o in opens {
        NoQuoteAcross(a, b, o + 1, k);
      } else {
        NoQuoteWithin(a, b, o - |a| + 1, k);
        assert o - |a| in later;
      }
    }
  }

  lemma OpenedInSecondBackward(a: string, b: string, opens: set<nat>, later: set<nat>, inside: bool, k: nat)
    requires k <= |b| && forall o :: o in opens ==> o < |a|
    requires Opened(b, later, Opened(a, opens, inside, |a|), k)
    ensures Opened(a + b, opens + Shifted(later, |a|), inside, |a| + k)
  {
    hide NoQuote;
    var all := opens + Shifted(later, |a|);
    NoQuoteAcross(a, b, 0, k);
    if exists o :: o in later && o < k && NoQuote(b, o + 1, k) {
      var o :| o in later && o < k && NoQuote(b, o + 1, k);
      NoQuoteWithin(a, b, o + 1, k);
      assert o + |a| in all;
    } else if exists o :: o in opens && o < |a| && NoQuote(a, o + 1, |a|) {
      var o :| o in opens && o < |a| && NoQuote(a, o + 1, |a|);
      NoQuoteAcross(a, b, o + 1, k);
      assert o in all;
    }
  }

  lemma BlanksInTwoParts(a: string, a': string, b: string, b': string, opens: set<nat>, later: set<nat>, inside: bool)
    requires Blanks(a, a', opens, inside) && Blanks(b, b', later, Opened(a, opens, inside, |a|))
    requires forall o :: o in opens ==> o < |a|
    ensures Blanks(a + b, a' + b', opens + Shifted(later, |a|), inside)
  {
    hide Opened;
    var before, after, all := a + b, a' + b', opens + Shifted(later, |a|);
    forall i | 0 <= i < |before| ensures after[i] == MaskedChar(before, all, inside, i) {
      if i < |a| {
        OpenedInFirst(a, b, opens, later, inside, i);
      } else {
        OpenedInSecond(a, b, opens, later, inside, i - |a|);
        assert before[i] == b[i - |a|] && after[i] == b'[i - |a|];
      }
    }
  }

  lemma {:induction false} SourceBlanks(lexer: Lexer, source: string, state: State)
    ensures Blanks(source, MaskFrom(lexer, source, state), OpeningsFrom(lexer, source, state), state.inside)
    decreases |source|
  {
    hide MaskLine, StateOpenings, Opened, Shifted;
    if source != "" {
      var n := LineLength(source);
      var first := MaskLine(lexer, source[..n], state);
      LineBlanks(lexer, source[..n], state);
      SourceBlanks(lexer, source[n..], first.state);
      BlanksInTwoParts(source[..n], first.text, source[n..], MaskFrom(lexer, source[n..], first.state),
                       StateOpenings(lexer, source[..n], state), OpeningsFrom(lexer, source[n..], first.state), state.inside);
      assert source == source[..n] + source[n..];
    }
  }

  /** Masking blanks the text of every program of the source, from its opening quote to the next quote,
      line ends excepted, and changes nothing else. */
  lemma MaskIsExact(lexer: Lexer, source: string)
    ensures Blanks(source, Mask(lexer, source), Openings(lexer, source), false)
  {
    SourceBlanks(lexer, source, State(false, false));
  }

  // ----- masking again -----

  predicate OnlyCrLf(source: string) { forall i :: 0 <= i < |source| ==> !IsOtherBreak(source[i]) }

  predicate SameLineEnds(a: string, b: string) {
    |a| == |b| && forall i :: 0 <= i < |a| ==> (a[i] == '\r' <==> b[i] == '\r') && (a[i] == '\n' <==> b[i] == '\n')
  }

  /** CR and LF stay where they are, and no other line end appears. */
  lemma BlanksKeepLineEnds(a: string, b: string, opens: set<nat>, inside: bool)
    requires Blanks(a, b, opens, inside)
    ensures SameLineEnds(a, b) && (OnlyCrLf(a) ==> OnlyCrLf(b))
  {
    hide Opened;
    assert !IsOtherBreak(' ');
  }

  lemma {:induction false} LineLengthSame(a: string, b: string)
    requires a != "" && SameLineEnds(a, b) && OnlyCrLf(a) && OnlyCrLf(b)
    ensures LineLength(a) == LineLength(b)
  {
    if |a| > 1 && !IsLineEnd(a[0]) {
      assert SameLineEnds(a[1..], b[1..]) && OnlyCrLf(a[1..]) && OnlyCrLf(b[1..]);
      LineLengthSame(a[1..], b[1..]);
    }
  }

  lemma {:induction false} MaskFromIsIdempotent(lexer: Lexer, source: string, state: State)
    requires OnlyCrLf(source)
    ensures var r := MaskFrom(lexer, source, state); MaskFrom(lexer, r, state) == r
    decreases |source|
  {
    hide MaskLine, Blanks, LineLength, SameLineEnds;
    if source != "" {
      var r, n := MaskFrom(lexer, source, state), LineLength(source);
      var first := MaskLine(lexer, source[..n], state);
      var rest := MaskFrom(lexer, source[n..], first.state);
      SourceBlanks(lexer, source, state);
      BlanksKeepLineEnds(source, r, OpeningsFrom(lexer, source, state), state.inside);
      LineLengthSame(source, r);
      assert r[..n] == first.text && r[n..] == rest;
      MaskLineIsIdempotent(lexer, source[..n], state);
      MaskFromIsIdempotent(lexer, source[n..], first.state);
    }
  }

  /** Masking the result again changes nothing, over all multi-line programs. */
  lemma MaskIsIdempotent(lexer: Lexer, source: string)
    requires OnlyCrLf(source)
    ensures var r := Mask(lexer, source); OnlyCrLf(r) && SameLineEnds(source, r) && Mask(lexer, r) == r
  {
    hide MaskFrom, OnlyCrLf, SameLineEnds, Blanks;
    MaskIsExact(lexer, source);
    BlanksKeepLineEnds(source, Mask(lexer, source), Openings(lexer, source), false);
    MaskFromIsIdempotent(lexer, source, State(false, false));
  }

  // ----- commands that go on -----

  /** The line ends in a backslash and white space. */
  ghost predicate EndsInBackslash(line: string) {
    exists i :: 0 <= i < |line| && line[i] == '\\' && forall k :: i < k < |line| ==> IsSpace(line[k])
  }

  lemma {:induction false} ContinuesExactlyWhen(line: string)
    ensures Continues(line) <==> EndsInBackslash(line)
  {
    if line != "" {
      var n := |line| - 1;
      assert !IsSpace('\\');
      if IsSpace(line[n]) {
        var front := line[..n];
        ContinuesExactlyWhen(front);
        if EndsInBackslash(front) {
          var i :| 0 <= i < n && front[i] == '\\' && forall k :: i < k < n ==> IsSpace(front[k]);
          assert line[i] == '\\' && forall k :: i < k < |line| ==> k == n || line[k] == front[k];
        }
        if EndsInBackslash(line) {
          var i :| 0 <= i < |line| && line[i] == '\\' && forall k :: i < k < |line| ==> IsSpace(line[k]);
          assert front[i] == line[i] && forall k :: i < k < n ==> front[k] == line[k];
        }
      } else if line[n] == '\\' {
        assert EndsInBackslash(line);
      }
    }
  }

  /** The program of a command is looked for on the next line exactly when the command has no quote on this one and
      the line goes on. */
  lemma WaitsExactlyWhen(lexer: Lexer, line: string, cursor: nat, waiting: bool)
    requires cursor < |line|
    ensures NextMove(lexer, line, cursor, waiting) == Stop(State(true, false)) <==>
      && EndsInBackslash(line)
      && if waiting then NoQuote(line, cursor, |line|)
         else CommandEnd(line, cursor) > 0 && NoQuote(line, CommandEnd(line, cursor), |line|)
  {
    hide FindQuote, CommandEnd, Continues, EndsInBackslash;
    ContinuesExactlyWhen(line);
  }

  // ----- shell text outside quotes -----

  /** Single quotes in the first i characters. An odd number is taken to mean that i is quoted for the
      shell. This approximates shell quoting: a quote inside double quotes or after a backslash counts too,
      although it opens nothing for the shell. */
  function Quotes(s: string, i: nat): nat
    requires i <= |s|
  {
    if i == 0 then 0 else Quotes(s, i - 1) + (if s[i - 1] == QUOTE then 1 else 0)
  }

  lemma {:induction false} QuotesAfterOpening(s: string, o: nat, i: nat)
    requires o < i <= |s| && s[o] == QUOTE && NoQuote(s, o + 1, i)
    ensures Quotes(s, i) == Quotes(s, o) + 1
  {
    if i > o + 1 {
      assert NoQuote(s, o + 1, i - 1);
      QuotesAfterOpening(s, o, i - 1);
    }
  }

  /** The program opened at o has a character that masking changes, at i. */
  predicate HasTextAt(s: string, o: nat, i: nat) {
    o < i < |s| && s[i] != ' ' && !IsLineEnd(s[i]) && NoQuote(s, o + 1, i + 1)
  }

  /** Only text inside single quotes, as `Quotes` counts them, is changed. */
  ghost predicate ShellTextStays(source: string, masked: string)
    requires |source| == |masked|
  {
    forall i :: 0 <= i < |source| && masked[i] != source[i] ==> Quotes(source, i) % 2 == 1
  }

  /** Every opening quote of a program with some text has an even number of quotes before it: the awk
      command it belongs to is not itself quoted text. */
  ghost predicate OpeningsOutsideQuotes(source: string, opens: set<nat>)
    requires forall o :: o in opens ==> o < |source|
  {
    forall o: nat, i: nat :: o in opens && HasTextAt(source, o, i) ==> Quotes(source, o) % 2 == 0
  }

  /** The masker leaves all text outside single quotes, as `Quotes` counts them, alone exactly when no
      program it finds opens at a quote that closes such text. */
  lemma ShellTextStaysExactlyWhen(lexer: Lexer, source: string)
    ensures ShellTextStays(source, Mask(lexer, source)) <==> OpeningsOutsideQuotes(source, Openings(lexer, source))
  {
    hide MaskFrom, OpeningsFrom, Quotes, Mask, Openings;
    var masked, opens := Mask(lexer, source), Openings(lexer, source);
    MaskIsExact(lexer, source);
    forall o: nat, i: nat | o in opens && HasTextAt(source, o, i)
      ensures masked[i] != source[i] && Quotes(source, i) == Quotes(source, o) + 1
    {
      TextIsChanged(source, masked, opens, o, i);
    }
    forall i | 0 <= i < |source| && masked[i] != source[i]
      ensures exists o :: o in opens && HasTextAt(source, o, i) && Quotes(source, i) == Quotes(source, o) + 1
    {
      var o := ChangedText(source, masked, opens, i);
    }
  }

  lemma TextIsChanged(source: string, masked: string, opens: set<nat>, o: nat, i: nat)
    requires Blanks(source, masked, opens, false) && o in opens && o < |source| && source[o] == QUOTE && HasTextAt(source, o, i)
    ensures masked[i] != source[i] && Quotes(source, i) == Quotes(source, o) + 1
  {
    hide Quotes;
    assert NoQuote(source, o + 1, i);
    QuotesAfterOpening(source, o, i);
  }

  lemma ChangedText(source: string, masked: string, opens: set<nat>, i: nat) returns (o: nat)
    requires Blanks(source, masked, opens, false) && i < |source| && masked[i] != source[i]
    requires forall o :: o in opens ==> o < |source| && source[o] == QUOTE
    ensures o in opens && HasTextAt(source, o, i) && Quotes(source, i) == Quotes(source, o) + 1
  {
    hide Quotes;
    assert Opened(source, opens, false, i);
    o :| o in opens && o < i && NoQuote(source, o + 1, i);
    QuotesAfterOpening(source, o, i);
  }

  /** The property does not hold of every source: here the word awk stands in quoted shell text, and the
      unquoted b after it is blanked. Any lexer that reads the options as the tool does agrees. */
  lemma QuotedAwkHidesShellText(lexer: Lexer)
    requires lexer.onlyOptions(" ") && !lexer.optionValue("x';awk ")
    ensures var source := "x';awk 'b'c'";
      Mask(lexer, source) == "x';awk ' 'c'" && !ShellTextStays(source, Mask(lexer, source))
  {
    hide Scan, MaskFrom, Mask, Quotes, LineLength;
    var s := "x';awk 'b'c'";
    QuotedMoves(lexer, s);
    OneLine(lexer, s);
    QuotesHere(s);
  }

  lemma QuotedMoves(lexer: Lexer, s: string)
    requires s == "x';awk 'b'c'" && lexer.onlyOptions(" ") && !lexer.optionValue("x';awk ")
    ensures Scan(lexer, s, s, 0, false).text == "x';awk ' 'c'"
  {
    hide NextMove, Masked;
    assert NextMove(lexer, s, 0, false) == ClosedProgram(7, 9) by { QuotedProgram(lexer, s); }
    assert NextMove(lexer, s, 10, false) == Stop(State(false, false)) by { NoFurtherCommand(lexer, s); }
    assert Masked(s, 8, 9) == "x';awk ' 'c'" by { BlankedProgram(s); }
    assert Scan(lexer, s, Masked(s, 8, 9), 10, false).text == Masked(s, 8, 9);
  }

  lemma BlankedProgram(s: string)
    requires s == "x';awk 'b'c'"
    ensures Masked(s, 8, 9) == "x';awk ' 'c'"
  {
  }

  lemma NoFurtherCommand(lexer: Lexer, s: string)
    requires s == "x';awk 'b'c'"
    ensures NextMove(lexer, s, 10, false) == Stop(State(false, false))
  {
    assert CommandEnd(s, 11) == 0;
    assert CommandEnd(s, 10) == 0;
  }

  lemma QuotedProgram(lexer: Lexer, s: string)
    requires s == "x';awk 'b'c'" && lexer.onlyOptions(" ") && !lexer.optionValue("x';awk ")
    ensures NextMove(lexer, s, 0, false) == ClosedProgram(7, 9)
  {
    hide CommandEnd, Continues;
    QuotedCommand(s);
    assert s[6..7] == " " && s[0..7] == "x';awk ";
    assert FindQuote(s, 6) == 7 && FindQuote(s, 8) == 9;
  }

  lemma QuotedCommand(s: string)
    requires s == "x';awk 'b'c'"
    ensures CommandEnd(s, 0) == 6
  {
    assert CommandAt(s, 2) == 6;
    assert CommandEnd(s, 2) == 6;
    assert CommandAt(s, 1) == 0 && CommandEnd(s, 1) == 6;
  }

  lemma OneLine(lexer: Lexer, s: string)
    requires s == "x';awk 'b'c'"
    ensures Mask(lexer, s) == Scan(lexer, s, s, 0, false).text
  {
    LineLengthPlain(s);
    assert s[..|s|] == s && s[|s|..] == "";
    var first := MaskLine(lexer, s, State(false, false));
    assert first.text + MaskFrom(lexer, "", first.state) == first.text;
  }

  lemma {:induction false} LineLengthPlain(s: string)
    requires s != "" && forall i :: 0 <= i < |s| ==> !IsLineEnd(s[i]) && !IsOtherBreak(s[i])
    ensures LineLength(s) == |s|
  {
    if |s| > 1 { LineLengthPlain(s[1..]); }
  }

  lemma QuotesHere(s: string)
    requires s == "x';awk 'b'c'"
    ensures Quotes(s, 8) == 2
  {
    assert Quotes(s, 1) == 0;
    assert NoQuote(s, 2, 7);
    QuotesAfterOpening(s, 1, 7);
  }
}
