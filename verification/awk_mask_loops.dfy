/** The masking lexer as it runs: one character list per line, overwritten in place. */
module AwkMaskLoops {
  import opened AwkMask
  import opened AwkPrograms

  method MaskSegment(chars: array<char>, start: nat, end: nat)
    requires start <= end <= chars.Length
    modifies chars
    ensures chars[..] == Masked(old(chars[..]), start, end)
  {
    var index := start;
    while index < end
      invariant start <= index <= end
      invariant chars[..] == Masked(old(chars[..]), start, index)
    {
      if !IsLineEnd(chars[index]) {
        chars[index] := ' ';
      }
      index := index + 1;
    }
  }

  /** One line: closes a program that is still open, then scans for commands. */
  method MaskLineInPlace(lexer: Lexer, line: string, state: State) returns (r: Scanned)
    ensures r == MaskLine(lexer, line, state)
  {
    hide Scan, Masked, FindQuote;
    var chars := new char[|line|](i requires 0 <= i < |line| => line[i]);
    assert chars[..] == line;
    var cursor := 0;
    if state.inside {
      var closing := FindQuote(line, cursor);
      MaskSegment(chars, cursor, closing);
      if closing == |line| {
        return Scanned(chars[..], state);
      }
      cursor := closing + 1;
    }
    r := ScanInPlace(lexer, line, chars, cursor, state.waiting);
  }

  /** The loop of the scan: finds the command, or goes on waiting for its program; then the quotes around
      its next argument; then passes over an option value or masks a program. */
  method ScanInPlace(lexer: Lexer, line: string, chars: array<char>, start: nat, waiting0: bool) returns (r: Scanned)
    requires chars.Length == |line| && start <= |line|
    modifies chars
    ensures r == Scan(lexer, line, old(chars[..]), start, waiting0)
  {
    hide Masked, NoQuote, CommandEnd, FindQuote, Continues, Scan;
    var cursor, waiting := start, waiting0;
    while cursor < |line|
      invariant cursor <= |line|
      invariant Scan(lexer, line, chars[..], cursor, waiting) == Scan(lexer, line, old(chars[..]), start, waiting0)
      decreases |line| - cursor
    {
      ScanTakesTheMove(lexer, line, chars[..], cursor, waiting);
      var optionStart := cursor;
      if !waiting {
        optionStart := CommandEnd(line, cursor);
        if optionStart == 0 {
          return Scanned(chars[..], State(false, false));
        }
      }
      var opening := FindQuote(line, optionStart);
      if opening == |line| {
        return Scanned(chars[..], State(Continues(line), false));
      }
      if !lexer.onlyOptions(line[optionStart..opening]) {
        return Scanned(chars[..], State(false, false));
      }
      var closing := FindQuote(line, opening + 1);
      if lexer.optionValue(line[cursor..opening]) {
        if closing == |line| {
          return Scanned(chars[..], State(false, false));
        }
        waiting, cursor := true, closing + 1;
        continue;
      }
      waiting := false;
      MaskSegment(chars, opening + 1, closing);
      if closing == |line| {
        return Scanned(chars[..], State(false, true));
      }
      cursor := closing + 1;
    }
    ScanEnds(lexer, line, chars[..], waiting);
    r := Scanned(chars[..], State(waiting, false));
  }

  lemma ScanTakesTheMove(lexer: Lexer, line: string, chars: string, cursor: nat, waiting: bool)
    requires |chars| == |line| && cursor < |line|
    ensures Scan(lexer, line, chars, cursor, waiting) ==
      match NextMove(lexer, line, cursor, waiting)
      case Stop(state) => Scanned(chars, state)
      case OpenProgram(opening) => Scanned(Masked(chars, opening + 1, |line|), State(false, true))
      case OptionValue(_, closing) => Scan(lexer, line, chars, closing + 1, true)
      case ClosedProgram(opening, closing) => Scan(lexer, line, Masked(chars, opening + 1, closing), closing + 1, false)
  {
    hide NextMove, Masked, NoQuote;
  }

  lemma ScanEnds(lexer: Lexer, line: string, chars: string, waiting: bool)
    requires |chars| == |line|
    ensures Scan(lexer, line, chars, |line|, waiting) == Scanned(chars, State(waiting, false))
  {
  }

  /** The whole source, whatever ends its lines: the programs are blanked and nothing else changes. */
  method MaskSingleQuotedAwkPrograms(lexer: Lexer, source: string) returns (output: string)
    ensures output == Mask(lexer, source)
    ensures Blanks(source, output, Openings(lexer, source), false)
  {
    hide MaskLine, LineLength, Blanks, Openings;
    output := "";
    var rest, state := source, State(false, false);
    while rest != ""
      invariant output + MaskFrom(lexer, rest, state) == Mask(lexer, source)
      decreases |rest|
    {
      var n := LineLength(rest);
      var masked := MaskLineInPlace(lexer, rest[..n], state);
      assert output + (masked.text + MaskFrom(lexer, rest[n..], masked.state)) ==
             output + masked.text + MaskFrom(lexer, rest[n..], masked.state);
      output, rest, state := output + masked.text, rest[n..], masked.state;
    }
    assert output + "" == output;
    MaskIsExact(lexer, source);
  }
}
