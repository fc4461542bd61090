/** Masking single-quoted awk programs in shell sources, so that a scan of shell syntax does not read
    awk syntax. Option parsing and the quoted-option pattern are given as predicates on texts. */
module AwkMask {

  const QUOTE: char := '\''

  predicate IsLineEnd(c: char) { c == '\r' || c == '\n' }

  /** Unicode white space, as regular expressions and `rstrip` know it. */
  predicate IsSpace(c: char) {
    var n := c as int;
    || 0x09 <= n <= 0x0d || 0x1c <= n <= 0x20 || n == 0x85 || n == 0xa0 || n == 0x1680 || 0x2000 <= n <= 0x200a
    || n == 0x2028 || n == 0x2029 || n == 0x202f || n == 0x205f || n == 0x3000
  }

  /** Reads the options before a quote: `onlyOptions` says that a text is nothing but awk options,
      `optionValue` that it ends in an option whose value is about to be quoted. */
  datatype Lexer = Lexer(onlyOptions: string -> bool, optionValue: string -> bool)

  datatype State = State(waiting: bool, inside: bool)

  datatype Scanned = Scanned(text: string, state: State)

  // ----- pieces of a line -----

  /** Position of the first quote from `start` on, or the length of the line. */
  function FindQuote(line: string, start: nat): (i: nat)
    requires start <= |line|
    ensures start <= i <= |line| && (i < |line| ==> line[i] == QUOTE)
    ensures forall j :: start <= j < i ==> line[j] != QUOTE
    decreases |line| - start
  {
    if start == |line| || line[start] == QUOTE then start else FindQuote(line, start + 1)
  }

  /** Overwrites a segment with spaces, line ends excepted. */
  function Masked(chars: string, start: nat, end: nat): (r: string)
    ensures |r| == |chars|
  {
    seq(|chars|, i requires 0 <= i < |chars| => if start <= i < end && !IsLineEnd(chars[i]) then ' ' else chars[i])
  }

  function SkipSpace(line: string, start: nat): (i: nat)
    requires start <= |line|
    ensures start <= i <= |line| && (i < |line| ==> !IsSpace(line[i]))
    ensures forall j :: start <= j < i ==> IsSpace(line[j])
    decreases |line| - start
  {
    if start == |line| || !IsSpace(line[start]) then start else SkipSpace(line, start + 1)
  }

  /** The word awk, followed by white space, a backslash or the end. */
  predicate AwkAt(line: string, i: nat) {
    && i + 3 <= |line| && line[i] == 'a' && line[i + 1] == 'w' && line[i + 2] == 'k'
    && (i + 3 == |line| || IsSpace(line[i + 3]) || line[i + 3] == '\\')
  }

  predicate IsSeparator(c: char) { c == '|' || c == ';' || c == '&' || c == '(' }

  /** End of a command match that starts at p, or 0: at the start of the line, or at a separator. */
  function CommandAt(line: string, p: nat): (e: nat)
    requires p <= |line|
    ensures e <= |line| && (e > 0 ==> e > p)
  {
    if p == 0 && AwkAt(line, SkipSpace(line, 0)) then SkipSpace(line, 0) + 3
    else if p < |line| && IsSeparator(line[p]) && AwkAt(line, SkipSpace(line, p + 1)) then SkipSpace(line, p + 1) + 3
    else 0
  }

  /** End of the first command match from `cursor` on, or 0. */
  function CommandEnd(line: string, cursor: nat): (e: nat)
    requires cursor <= |line|
    ensures e <= |line| && (e > 0 ==> e > cursor)
    decreases |line| - cursor
  {
    if CommandAt(line, cursor) > 0 then CommandAt(line, cursor)
    else if cursor == |line| then 0
    else CommandEnd(line, cursor + 1)
  }

  /** The last character that is not white space is a backslash. */
  predicate Continues(line: string) {
    line != "" && if IsSpace(line[|line| - 1]) then Continues(line[..|line| - 1]) else line[|line| - 1] == '\\'
  }

  // ----- one line -----

  /** What the scan does next: stop, mask to the end of an open program, pass over a quoted option
      value, or mask a closed program. */
  datatype Move =
    | Stop(state: State)
    | OpenProgram(opening: nat)
    | OptionValue(opening: nat, closing: nat)
    | ClosedProgram(opening: nat, closing: nat)

  function NextMove(lexer: Lexer, line: string, cursor: nat, waiting: bool): (m: Move)
    requires cursor < |line|
    ensures !m.Stop? ==> cursor <= m.opening < |line| && line[m.opening] == QUOTE
    ensures m.OpenProgram? ==> NoQuote(line, m.opening + 1, |line|)
    ensures m.OptionValue? || m.ClosedProgram? ==>
      m.opening < m.closing < |line| && line[m.closing] == QUOTE && NoQuote(line, m.opening + 1, m.closing)
    ensures m.Stop? ==> !m.state.inside
  {
    var start := if waiting then cursor else CommandEnd(line, cursor);
    if !waiting && start == 0 then Stop(State(false, false))
    else
      var opening := FindQuote(line, start);
      if opening == |line| then Stop(State(Continues(line), false))
      else if !lexer.onlyOptions(line[start..opening]) then Stop(State(false, false))
      else
        var closing := FindQuote(line, opening + 1);
        if lexer.optionValue(line[cursor..opening]) then
          if closing == |line| then Stop(State(false, false)) else OptionValue(opening, closing)
        else if closing == |line| then OpenProgram(opening)
        else ClosedProgram(opening, closing)
  }

  predicate NoQuote(line: string, start: nat, end: nat) {
    forall i :: start <= i < end && i < |line| ==> line[i] != QUOTE
  }

  /** The scan of a line from `cursor` on; `chars` is the line with what was masked before. */
  function Scan(lexer: Lexer, line: string, chars: string, cursor: nat, waiting: bool): (r: Scanned)
    requires |chars| == |line| && cursor <= |line|
    ensures |r.text| == |line|
    decreases |line| - cursor
  {
    if cursor == |line| then Scanned(chars, State(waiting, false))
    else
      match NextMove(lexer, line, cursor, waiting)
      case Stop(state) => Scanned(chars, state)
      case OpenProgram(opening) => Scanned(Masked(chars, opening + 1, |line|), State(false, true))
      case OptionValue(_, closing) => Scan(lexer, line, chars, closing + 1, true)
      case ClosedProgram(opening, closing) =>
        Scan(lexer, line, Masked(chars, opening + 1, closing), closing + 1, false)
  }

  function MaskLine(lexer: Lexer, line: string, state: State): (r: Scanned)
    ensures |r.text| == |line|
  {
    if !state.inside then Scan(lexer, line, line, 0, state.waiting)
    else
      var closing := FindQuote(line, 0);
      if closing == |line| then Scanned(Masked(line, 0, |line|), state)
      else Scan(lexer, line, Masked(line, 0, closing), closing + 1, state.waiting)
  }

  // ----- a whole source -----

  /** Characters besides CR and LF at which a line ends. */
  predicate IsOtherBreak(c: char) {
    var n := c as int;
    n == 0x0b || n == 0x0c || 0x1c <= n <= 0x1e || n == 0x85 || n == 0x2028 || n == 0x2029
  }

  /** Length of the first line, its end included; CR LF is one end. */
  function LineLength(s: string): (n: nat)
    requires s != ""
    ensures 1 <= n <= |s|
  {
    if s[0] == '\n' || IsOtherBreak(s[0]) then 1
    else if s[0] == '\r' then (if |s| > 1 && s[1] == '\n' then 2 else 1)
    else if |s| == 1 then 1
    else 1 + LineLength(s[1..])
  }

  /** The masked source: line by line, the state carried over. */
  function MaskFrom(lexer: Lexer, source: string, state: State): (r: string)
    ensures |r| == |source|
    decreases |source|
  {
    if source == "" then ""
    else
      var n := LineLength(source);
      var first := MaskLine(lexer, source[..n], state);
      first.text + MaskFrom(lexer, source[n..], first.state)
  }

  function Mask(lexer: Lexer, source: string): (r: string)
    ensures |r| == |source|
  {
    MaskFrom(lexer, source, State(false, false))
  }

  // ----- comparing texts -----

  predicate Agree(a: string, b: string, start: nat, end: nat) {
    |a| == |b| && forall i :: start <= i < end && i < |a| ==> a[i] == b[i]
  }

  lemma AgreeTrans(a: string, b: string, c: string, start: nat, end: nat)
    requires Agree(a, b, start, end) && Agree(b, c, start, end)
    ensures Agree(a, c, start, end) && Agree(c, a, start, end)
  {
  }

  lemma AgreeLess(a: string, b: string, start: nat, end: nat, s: nat, e: nat)
    requires Agree(a, b, start, end) && start <= s && e <= end
    ensures Agree(a, b, s, e) && Agree(b, a, s, e)
  {
  }

  /** Nothing but spaces and line ends. */
  predicate Blank(s: string, start: nat, end: nat) {
    forall i :: start <= i < end && i < |s| ==> s[i] == ' ' || IsLineEnd(s[i])
  }

  lemma MaskedIsBlank(chars: string, start: nat, end: nat)
    requires start <= end
    ensures Blank(Masked(chars, start, end), start, end)
    ensures Agree(chars, Masked(chars, start, end), 0, start) && Agree(chars, Masked(chars, start, end), end, |chars|)
  {
  }

  lemma BlankStays(s: string, start: nat, end: nat)
    requires Blank(s, start, end)
    ensures Masked(s, start, end) == s && NoQuote(s, start, end)
  {
  }

  lemma BlankAgrees(a: string, b: string, start: nat, end: nat)
    requires Blank(a, start, end) && Agree(a, b, start, end)
    ensures Blank(b, start, end)
  {
  }

  lemma AgreeAt(a: string, b: string, start: nat, end: nat, i: nat)
    requires Agree(a, b, start, end) && start <= i < end && i < |a|
    ensures a[i] == b[i]
  {
  }

  /** Scanning keeps what is before the cursor. */
  lemma {:induction false} ScanKeepsBefore(lexer: Lexer, line: string, chars: string, cursor: nat, waiting: bool)
    requires |chars| == |line| && cursor <= |line|
    ensures Agree(chars, Scan(lexer, line, chars, cursor, waiting).text, 0, cursor)
    decreases |line| - cursor
  {
    hide NextMove, NoQuote, Agree, Masked;
    AgreeItself(chars, 0, cursor);
    if cursor < |line| {
      var r := Scan(lexer, line, chars, cursor, waiting).text;
      match NextMove(lexer, line, cursor, waiting)
      case Stop(_) =>
      case OpenProgram(opening) =>
        MaskedIsBlank(chars, opening + 1, |line|);
        AgreeLess(chars, r, 0, opening + 1, 0, cursor);
      case OptionValue(_, closing) =>
        ScanKeepsBefore(lexer, line, chars, closing + 1, true);
        AgreeLess(chars, r, 0, closing + 1, 0, cursor);
      case ClosedProgram(opening, closing) =>
        var masked := Masked(chars, opening + 1, closing);
        MaskedIsBlank(chars, opening + 1, closing);
        AgreeLess(chars, masked, 0, opening + 1, 0, cursor);
        ScanKeepsBefore(lexer, line, masked, closing + 1, false);
        AgreeLess(masked, r, 0, closing + 1, 0, cursor);
        AgreeTrans(chars, masked, r, 0, cursor);
    }
  }

  lemma AgreeItself(a: string, start: nat, end: nat)
    ensures Agree(a, a, start, end)
  {
  }

  // ----- searching a masked line finds the same -----

  lemma {:induction false} SkipSpaceSame(a: string, b: string, start: nat, q: nat)
    requires start <= q < |a| && Agree(a, b, start, q + 1) && a[q] == QUOTE
    ensures SkipSpace(a, start) == SkipSpace(b, start) <= q
    decreases q - start
  {
    if start < q { SkipSpaceSame(a, b, start + 1, q); }
  }

  /** Up to a quote, a command match depends only on what is before the quote. */
  lemma CommandAtSame(a: string, b: string, cursor: nat, p: nat, q: nat)
    requires cursor <= p <= q < |a| && Agree(a, b, cursor, q + 1) && a[q] == QUOTE
    ensures CommandAt(a, p) == CommandAt(b, p) <= q
  {
    hide SkipSpace, IsSpace;
    if p == 0 {
      SkipSpaceSame(a, b, 0, q);
      AwkSame(a, b, cursor, SkipSpace(a, 0), q);
    }
    if p < q {
      SkipSpaceSame(a, b, p + 1, q);
      AwkSame(a, b, cursor, SkipSpace(a, p + 1), q);
    }
  }

  lemma AwkSame(a: string, b: string, cursor: nat, i: nat, q: nat)
    requires cursor <= i <= q < |a| && Agree(a, b, cursor, q + 1) && a[q] == QUOTE
    ensures AwkAt(a, i) == AwkAt(b, i) && (AwkAt(a, i) ==> i + 3 <= q)
  {
    hide IsSpace;
    assert a[q] == b[q] == QUOTE;
  }

  lemma {:induction false} CommandEndSame(a: string, b: string, cursor: nat, p: nat, q: nat)
    requires cursor <= p <= q < |a| && Agree(a, b, cursor, q + 1) && a[q] == QUOTE && 0 < CommandEnd(a, p) <= q
    ensures CommandEnd(b, p) == CommandEnd(a, p)
    decreases q - p
  {
    hide CommandAt;
    CommandAtSame(a, b, cursor, p, q);
    if CommandAt(a, p) == 0 { CommandEndSame(a, b, cursor, p + 1, q); }
  }

  lemma {:induction false} SkipSpaceSuffix(a: string, b: string, start: nat)
    requires start <= |a| && Agree(a, b, start, |a|)
    ensures SkipSpace(a, start) == SkipSpace(b, start)
    decreases |a| - start
  {
    if start < |a| { SkipSpaceSuffix(a, b, start + 1); }
  }

  lemma CommandAtSuffix(a: string, b: string, p: nat)
    requires p <= |a| && Agree(a, b, p, |a|)
    ensures CommandAt(a, p) == CommandAt(b, p)
  {
    hide SkipSpace, IsSpace, AwkAt;
    SkipSpaceSuffix(a, b, p);
    AwkSuffix(a, b, SkipSpace(a, p), p);
    if p < |a| {
      SkipSpaceSuffix(a, b, p + 1);
      AwkSuffix(a, b, SkipSpace(a, p + 1), p);
    }
  }

  lemma AwkSuffix(a: string, b: string, i: nat, p: nat)
    requires p <= i && Agree(a, b, p, |a|)
    ensures AwkAt(a, i) == AwkAt(b, i)
  {
    hide IsSpace;
  }

  lemma {:induction false} CommandEndSuffix(a: string, b: string, p: nat)
    requires p <= |a| && Agree(a, b, p, |a|)
    ensures CommandEnd(a, p) == CommandEnd(b, p)
    decreases |a| - p
  {
    hide CommandAt;
    CommandAtSuffix(a, b, p);
    if p < |a| { CommandEndSuffix(a, b, p + 1); }
  }

  lemma {:induction false} ContinuesSame(a: string, b: string, k: nat)
    requires k < |a| && Agree(a, b, k, |a|) && !IsSpace(a[k])
    ensures Continues(a) == Continues(b)
    decreases |a|
  {
    var n := |a| - 1;
    if IsSpace(a[n]) { ContinuesSame(a[..n], b[..n], k); }
  }

  lemma FindQuoteSame(a: string, b: string, start: nat, q: nat)
    requires |a| == |b| && start <= q <= |a| && NoQuote(a, start, q) && NoQuote(b, start, q)
    requires q < |a| ==> a[q] == QUOTE && b[q] == QUOTE
    ensures FindQuote(a, start) == FindQuote(b, start) == q
  {
  }

  // ----- masking again -----

  /** The scan has just passed a quote, or is at the start of the line. */
  predicate AtStart(line: string, cursor: nat) {
    cursor <= |line| && (cursor == 0 || line[cursor - 1] == QUOTE)
  }

  function Back(cursor: nat): nat { if cursor == 0 then 0 else cursor - 1 }

  /** What masking may leave of a line for the next move to be the same. */
  predicate SameForMove(line: string, out: string, cursor: nat, m: Move)
    requires |out| == |line|
  {
    match m
    case Stop(_) => Agree(line, out, Back(cursor), |line|)
    case OpenProgram(opening) => Agree(line, out, cursor, opening + 1) && NoQuote(out, opening + 1, |out|)
    case OptionValue(_, closing) => Agree(line, out, cursor, closing + 1)
    case ClosedProgram(opening, closing) =>
      && Agree(line, out, cursor, opening + 1) && NoQuote(out, opening + 1, closing)
      && closing < |out| && out[closing] == QUOTE
  }

  lemma StopIsSame(lexer: Lexer, line: string, out: string, cursor: nat, waiting: bool)
    requires cursor < |line| && |out| == |line| && AtStart(line, cursor)
    requires NextMove(lexer, line, cursor, waiting).Stop? && Agree(line, out, Back(cursor), |line|)
    ensures NextMove(lexer, out, cursor, waiting) == NextMove(lexer, line, cursor, waiting)
  {
    hide CommandEnd, FindQuote, Continues, IsSpace;
    CommandEndSuffix(line, out, cursor);
    if cursor > 0 {
      assert Continues(line) == Continues(out) by { QuoteIsNoSpace(); ContinuesSame(line, out, cursor - 1); }
    } else {
      assert line == out;
    }
    var start := if waiting then cursor else CommandEnd(line, cursor);
    if waiting || start > 0 {
      var opening := FindQuote(line, start);
      FindQuoteSame(line, out, start, opening);
      if opening < |line| {
        assert line[start..opening] == out[start..opening] && line[cursor..opening] == out[cursor..opening];
        FindQuoteSame(line, out, opening + 1, FindQuote(line, opening + 1));
      }
    }
  }

  lemma QuoteIsNoSpace()
    ensures !IsSpace(QUOTE)
  {
  }

  lemma OtherMovesAreSame(lexer: Lexer, line: string, out: string, cursor: nat, waiting: bool)
    requires cursor < |line| && |out| == |line|
    requires var m := NextMove(lexer, line, cursor, waiting); !m.Stop? && SameForMove(line, out, cursor, m)
    ensures NextMove(lexer, out, cursor, waiting) == NextMove(lexer, line, cursor, waiting)
  {
    hide CommandEnd, FindQuote, Continues, IsSpace, Masked;
    var m := NextMove(lexer, line, cursor, waiting);
    var start := if waiting then cursor else CommandEnd(line, cursor);
    var opening := m.opening;
    assert opening == FindQuote(line, start);
    assert Agree(line, out, cursor, opening + 1);
    AgreeAt(line, out, cursor, opening + 1, opening);
    SameSlice(line, out, cursor, opening + 1, start, opening);
    SameSlice(line, out, cursor, opening + 1, cursor, opening);
    if !waiting { CommandEndSame(line, out, cursor, cursor, opening); }
    FindQuoteSame(line, out, start, opening);
    FindQuoteSame(line, out, opening + 1, if m.OpenProgram? then |line| else m.closing);
  }

  lemma SameSlice(a: string, b: string, start: nat, end: nat, lo: nat, hi: nat)
    requires Agree(a, b, start, end) && start <= lo <= hi <= end && hi <= |a|
    ensures a[lo..hi] == b[lo..hi]
  {
  }

  /** A closed program is blank in the result, and everything up to its opening quote is as it was. */
  lemma ClosedProgramInResult(lexer: Lexer, line: string, chars: string, cursor: nat, waiting: bool)
    requires cursor < |line| && |chars| == |line| && Agree(line, chars, Back(cursor), |line|)
    requires NextMove(lexer, line, cursor, waiting).ClosedProgram?
    ensures var r := Scan(lexer, line, chars, cursor, waiting).text; var m := NextMove(lexer, line, cursor, waiting);
      && Agree(line, r, cursor, m.opening + 1) && Blank(r, m.opening + 1, m.closing) && r[m.closing] == QUOTE
      && Agree(line, Masked(chars, m.opening + 1, m.closing), m.closing, |line|)
  {
    hide NextMove, NoQuote, Agree, Masked, Blank;
    var m := NextMove(lexer, line, cursor, waiting);
    var masked, r := Masked(chars, m.opening + 1, m.closing), Scan(lexer, line, chars, cursor, waiting).text;
    MaskedIsBlank(chars, m.opening + 1, m.closing);
    ScanKeepsBefore(lexer, line, masked, m.closing + 1, false);
    AgreeLess(masked, r, 0, m.closing + 1, cursor, m.opening + 1);
    AgreeLess(chars, masked, 0, m.opening + 1, cursor, m.opening + 1);
    AgreeLess(line, chars, Back(cursor), |line|, cursor, m.opening + 1);
    AgreeTrans(line, chars, masked, cursor, m.opening + 1);
    AgreeTrans(line, masked, r, cursor, m.opening + 1);
    AgreeLess(masked, r, 0, m.closing + 1, m.opening + 1, m.closing);
    BlankAgrees(masked, r, m.opening + 1, m.closing);
    AgreeLess(line, chars, Back(cursor), |line|, m.closing, |line|);
    AgreeTrans(line, chars, masked, m.closing, |line|);
    AgreeAt(line, masked, m.closing, |line|, m.closing);
    AgreeAt(masked, r, 0, m.closing + 1, m.closing);
  }

  lemma OpenProgramInResult(lexer: Lexer, line: string, chars: string, cursor: nat, waiting: bool)
    requires cursor < |line| && |chars| == |line| && Agree(line, chars, Back(cursor), |line|)
    requires NextMove(lexer, line, cursor, waiting).OpenProgram?
    ensures var r := Scan(lexer, line, chars, cursor, waiting).text; var m := NextMove(lexer, line, cursor, waiting);
      Agree(line, r, cursor, m.opening + 1) && Blank(r, m.opening + 1, |line|)
  {
    hide NextMove, NoQuote, Agree, Masked, Blank;
    var m := NextMove(lexer, line, cursor, waiting);
    var r := Scan(lexer, line, chars, cursor, waiting).text;
    MaskedIsBlank(chars, m.opening + 1, |line|);
    AgreeLess(chars, r, 0, m.opening + 1, cursor, m.opening + 1);
    AgreeLess(line, chars, Back(cursor), |line|, cursor, m.opening + 1);
    AgreeTrans(line, chars, r, cursor, m.opening + 1);
  }

  /** Scanning the result again makes the same moves and masks nothing new. */
  lemma {:induction false} ScanIsIdempotent(lexer: Lexer, line: string, chars: string, cursor: nat, waiting: bool)
    requires AtStart(line, cursor) && |chars| == |line| && Agree(line, chars, Back(cursor), |line|)
    ensures var r := Scan(lexer, line, chars, cursor, waiting);
      Scan(lexer, r.text, r.text, cursor, waiting) == r
    decreases |line| - cursor
  {
    hide NextMove, NoQuote, Agree, Masked, Blank;
    if cursor < |line| {
      var r := Scan(lexer, line, chars, cursor, waiting);
      var m := NextMove(lexer, line, cursor, waiting);
      MoveIsSame(lexer, line, chars, cursor, waiting);
      match m
      case Stop(_) =>
      case OpenProgram(opening) =>
        OpenProgramInResult(lexer, line, chars, cursor, waiting);
        BlankStays(r.text, opening + 1, |line|);
      case OptionValue(_, closing) =>
        AgreeLess(line, chars, Back(cursor), |line|, closing, |line|);
        ScanIsIdempotent(lexer, line, chars, closing + 1, true);
      case ClosedProgram(opening, closing) =>
        ClosedProgramInResult(lexer, line, chars, cursor, waiting);
        BlankStays(r.text, opening + 1, closing);
        ScanIsIdempotent(lexer, line, Masked(chars, opening + 1, closing), closing + 1, false);
    }
  }

  lemma MoveIsSame(lexer: Lexer, line: string, chars: string, cursor: nat, waiting: bool)
    requires cursor < |line| && AtStart(line, cursor) && |chars| == |line| && Agree(line, chars, Back(cursor), |line|)
    ensures NextMove(lexer, Scan(lexer, line, chars, cursor, waiting).text, cursor, waiting) == NextMove(lexer, line, cursor, waiting)
  {
    hide NextMove, NoQuote, Agree, Masked, Blank;
    var r := Scan(lexer, line, chars, cursor, waiting);
    match NextMove(lexer, line, cursor, waiting)
    case Stop(_) => StopIsSame(lexer, line, r.text, cursor, waiting);
    case OpenProgram(opening) =>
      OpenProgramInResult(lexer, line, chars, cursor, waiting);
      BlankStays(r.text, opening + 1, |line|);
      OtherMovesAreSame(lexer, line, r.text, cursor, waiting);
    case OptionValue(_, closing) =>
      ScanKeepsBefore(lexer, line, chars, closing + 1, true);
      AgreeLess(chars, r.text, 0, closing + 1, cursor, closing + 1);
      AgreeLess(line, chars, Back(cursor), |line|, cursor, closing + 1);
      AgreeTrans(line, chars, r.text, cursor, closing + 1);
      OtherMovesAreSame(lexer, line, r.text, cursor, waiting);
    case ClosedProgram(opening, closing) =>
      ClosedProgramInResult(lexer, line, chars, cursor, waiting);
      BlankStays(r.text, opening + 1, closing);
      OtherMovesAreSame(lexer, line, r.text, cursor, waiting);
  }

  lemma MaskLineIsIdempotent(lexer: Lexer, line: string, state: State)
    ensures var r := MaskLine(lexer, line, state); MaskLine(lexer, r.text, state) == r
  {
    hide Scan, NoQuote, Agree, Masked, Blank, FindQuote;
    var r := MaskLine(lexer, line, state);
    if !state.inside {
      AgreeItself(line, 0, |line|);
      ScanIsIdempotent(lexer, line, line, 0, state.waiting);
    } else {
      var closing := FindQuote(line, 0);
      var chars := Masked(line, 0, closing);
      MaskedIsBlank(line, 0, closing);
      if closing < |line| {
        ScanIsIdempotent(lexer, line, chars, closing + 1, state.waiting);
        ScanKeepsBefore(lexer, line, chars, closing + 1, state.waiting);
        AgreeLess(chars, r.text, 0, closing + 1, 0, closing);
        BlankAgrees(chars, r.text, 0, closing);
        AgreeAt(line, chars, closing, |line|, closing);
        AgreeAt(chars, r.text, 0, closing + 1, closing);
      }
      BlankStays(r.text, 0, closing);
      FindQuoteSame(r.text, r.text, 0, closing);
    }
  }
}
