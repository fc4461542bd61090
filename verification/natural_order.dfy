/** Natural ordering of texts: digit runs compare as numbers of any length, other bytes by code. */
module NaturalOrder {
  import opened Basics
  import opened Text

  datatype Token = Number(value: nat) | Byte(code: char)

  function Sign(n: int): int { if n < 0 then -1 else if n > 0 then 1 else 0 }

  /** A number meets a byte through its first digit, and digits are adjacent codes. */
  function CompareTokens(a: Token, b: Token): int {
    match (a, b)
    case (Number(m), Number(n)) => Sign(m - n)
    case (Byte(c), Byte(d)) => Sign(c as int - d as int)
    case (Number(_), Byte(d)) => if d > '9' then -1 else 1
    case (Byte(c), Number(_)) => if c > '9' then 1 else -1
  }

  /** Lexicographic comparison; a proper prefix comes first. */
  function Compare(a: seq<Token>, b: seq<Token>): int {
    if a == [] then (if b == [] then 0 else -1)
    else if b == [] then 1
    else
      var first := CompareTokens(a[0], b[0]);
      if first != 0 then first else Compare(a[1..], b[1..])
  }

  lemma {:induction false} CompareIsAntisymmetric(a: seq<Token>, b: seq<Token>)
    ensures Compare(a, b) == -Compare(b, a)
    ensures Compare(a, b) == 0 <==> a == b
    ensures Compare(a, b) in {-1, 0, 1}
  {
    if a != [] && b != [] {
      CompareIsAntisymmetric(a[1..], b[1..]);
      assert a == [a[0]] + a[1..] && b == [b[0]] + b[1..];
    }
  }

  lemma {:induction false} CompareIsTransitive(a: seq<Token>, b: seq<Token>, c: seq<Token>)
    requires Compare(a, b) <= 0 && Compare(b, c) <= 0
    ensures Compare(a, c) <= 0
  {
    if a != [] && b != [] && c != [] {
      if CompareTokens(a[0], b[0]) == 0 && CompareTokens(b[0], c[0]) == 0 {
        CompareIsTransitive(a[1..], b[1..], c[1..]);
      }
    }
  }

  // ----- tokens of a text -----

  /** Length of the leading digit run. */
  function DigitRun(s: string): (n: nat)
    ensures n <= |s| && AllDigits(s[..n]) && (n < |s| ==> !IsDigit(s[n]))
    ensures s != "" && IsDigit(s[0]) ==> n > 0
  {
    if s == "" || !IsDigit(s[0]) then 0
    else
      var rest := DigitRun(s[1..]);
      assert s[..1 + rest] == [s[0]] + s[1..][..rest];
      1 + rest
  }

  function HeadLength(s: string): (n: nat)
    requires s != ""
    ensures 1 <= n <= |s|
  {
    if IsDigit(s[0]) then DigitRun(s) else 1
  }

  function Head(s: string): Token
    requires s != ""
  {
    if IsDigit(s[0]) then Number(NumericValue(s[..DigitRun(s)])) else Byte(s[0])
  }

  /** Maximal digit runs as numbers, every other byte by itself. */
  function Tokens(s: string): seq<Token>
    decreases |s|
  {
    if s == "" then [] else [Head(s)] + Tokens(s[HeadLength(s)..])
  }

  // ----- comparing digit runs without converting them -----

  lemma {:induction false} PowerGrows(m: nat, n: nat)
    requires m <= n
    ensures 1 <= Power10(m) <= Power10(n)
  {
    if m < n {
      PowerGrows(m, n - 1);
    } else if m > 0 {
      PowerGrows(m - 1, n - 1);
    }
  }

  lemma {:induction false} ValueBounds(s: string)
    requires AllDigits(s)
    ensures NumericValue(s) < Power10(|s|)
    ensures s != "" && s[0] != '0' ==> Power10(|s| - 1) <= NumericValue(s)
  {
    if s != "" {
      var front := s[..|s| - 1];
      ValueBounds(front);
      assert front != "" ==> front[0] == s[0];
    }
  }

  lemma {:induction false} LeadingZeros(s: string, k: nat)
    requires AllDigits(s) && k <= |s| && forall i :: 0 <= i < k ==> s[i] == '0'
    ensures NumericValue(s) == NumericValue(s[k..])
  {
    if s != "" {
      var n := |s| - 1;
      if k <= n {
        LeadingZeros(s[..n], k);
        assert s[k..][..n - k] == s[..n][k..];
      } else {
        LeadingZeros(s[..n], n);
        assert s[..n][n..] == "" && s[k..] == "";
      }
    }
  }

  lemma {:induction false} LessByPrefix(a: string, b: string)
    requires |a| == |b| > 0
    ensures var n := |a| - 1;
      Less(a, b) <==> Less(a[..n], b[..n]) || (a[..n] == b[..n] && a[n] < b[n])
    decreases |a|
  {
    var n := |a| - 1;
    if n > 0 {
      LessByPrefix(a[1..], b[1..]);
      assert a[..n][1..] == a[1..][..n - 1] && b[..n][1..] == b[1..][..n - 1];
      assert a[..n] == [a[0]] + a[..n][1..] && b[..n] == [b[0]] + b[..n][1..];
    }
  }

  lemma {:induction false} LessMeansSmaller(a: string, b: string)
    requires AllDigits(a) && AllDigits(b) && |a| == |b| && Less(a, b)
    ensures NumericValue(a) < NumericValue(b)
    decreases |a|
  {
    var n := |a| - 1;
    LessByPrefix(a, b);
    if Less(a[..n], b[..n]) {
      LessMeansSmaller(a[..n], b[..n]);
    }
  }

  /** The comparison `std::string::compare` makes. */
  function CompareText(a: string, b: string): int {
    if a == b then 0 else if Less(a, b) then -1 else 1
  }

  lemma CompareTextIsAntisymmetric(a: string, b: string)
    ensures CompareText(a, b) == -CompareText(b, a)
  {
    LessIsTotal(a, b);
  }

  predicate Significant(run: string, zeros: nat) {
    && AllDigits(run) && zeros <= |run|
    && (forall i :: 0 <= i < zeros ==> run[i] == '0')
    && (zeros < |run| ==> run[zeros] != '0')
  }

  /** Without leading zeros a shorter run is smaller, and runs of one length compare as texts. */
  lemma RunsCompareAsNumbers(a: string, za: nat, b: string, zb: nat)
    requires Significant(a, za) && Significant(b, zb)
    ensures Sign(NumericValue(a) - NumericValue(b)) ==
      if |a| - za != |b| - zb then Sign(|a| - za - (|b| - zb)) else CompareText(a[za..], b[zb..])
  {
    LeadingZeros(a, za);
    LeadingZeros(b, zb);
    var x, y := a[za..], b[zb..];
    if |x| < |y| {
      ShorterIsSmaller(x, y);
    } else if |y| < |x| {
      ShorterIsSmaller(y, x);
    } else {
      LessIsTotal(x, y);
      if Less(x, y) {
        LessMeansSmaller(x, y);
      } else if Less(y, x) {
        LessMeansSmaller(y, x);
      }
    }
  }

  lemma ShorterIsSmaller(x: string, y: string)
    requires AllDigits(x) && AllDigits(y) && |x| < |y| && y[0] != '0'
    ensures NumericValue(x) < NumericValue(y)
  {
    ValueBounds(x);
    ValueBounds(y);
    PowerGrows(|x|, |y| - 1);
  }

  // ----- the comparison loop -----

  method EndOfRun(s: string, start: nat) returns (end: nat)
    requires start <= |s|
    ensures end == start + DigitRun(s[start..])
  {
    end := start;
    while end < |s| && IsDigit(s[end])
      invariant start <= end <= |s|
      invariant forall i :: start <= i < end ==> IsDigit(s[i])
    {
      end := end + 1;
    }
    var n := DigitRun(s[start..]);
    assert n < |s| - start ==> !IsDigit(s[start + n]);
    assert forall i :: 0 <= i < n ==> s[start + i] == s[start..][..n][i];
  }

  method SkipZeros(s: string, start: nat, end: nat) returns (k: nat)
    requires start <= end <= |s| && AllDigits(s[start..end])
    ensures start <= k <= end && Significant(s[start..end], k - start)
  {
    k := start;
    while k < end && s[k] == '0'
      invariant start <= k <= end
      invariant forall i :: start <= i < k ==> s[i] == '0'
    {
      k := k + 1;
    }
  }

  /** Natural comparison decides the order of the token lists. */
  method NaturalCompare(left: string, right: string) returns (c: int)
    ensures c == Compare(Tokens(left), Tokens(right))
  {
    hide Tokens, Compare, Head, HeadLength;
    var l, r := 0, 0;
    assert left[0..] == left && right[0..] == right;
    while l < |left| && r < |right|
      invariant 0 <= l <= |left| && 0 <= r <= |right|
      invariant Compare(Tokens(left), Tokens(right)) == Compare(Tokens(left[l..]), Tokens(right[r..]))
      decreases |left| - l
    {
      CompareStep(left, l, right, r);
      if IsDigit(left[l]) && IsDigit(right[r]) {
        var le, re;
        c, le, re := CompareRuns(left, l, right, r);
        if c != 0 { return; }
        l, r := le, re;
      } else {
        HeadsOfBytes(left[l..], right[r..]);
        if left[l] != right[r] {
          return if left[l] < right[r] then -1 else 1;
        }
        l, r := l + 1, r + 1;
      }
    }
    EndOfEither(left[l..], right[r..]);
    if l == |left| && r == |right| {
      return 0;
    }
    c := if l == |left| then -1 else 1;
  }

  /** Compares two digit runs by length without leading zeros, then as texts. */
  method CompareRuns(left: string, l: nat, right: string, r: nat) returns (c: int, le: nat, re: nat)
    requires l < |left| && r < |right| && IsDigit(left[l]) && IsDigit(right[r])
    ensures c == CompareTokens(Head(left[l..]), Head(right[r..]))
    ensures le == l + HeadLength(left[l..]) && re == r + HeadLength(right[r..])
  {
    hide NumericValue, Less, DigitRun, Significant;
    le := EndOfRun(left, l);
    re := EndOfRun(right, r);
    RunIsSlice(left, l, le);
    RunIsSlice(right, r, re);
    var ln := SkipZeros(left, l, le);
    var rn := SkipZeros(right, r, re);
    RunsCompareAsNumbers(left[l..le], ln - l, right[r..re], rn - r);
    if le - ln != re - rn {
      c := if le - ln < re - rn then -1 else 1;
    } else {
      assert left[l..le][ln - l..] == left[ln..le] && right[r..re][rn - r..] == right[rn..re];
      c := CompareText(left[ln..le], right[rn..re]);
    }
  }

  lemma RunIsSlice(s: string, start: nat, end: nat)
    requires start < |s| && end == start + DigitRun(s[start..])
    ensures s[start..end] == s[start..][..DigitRun(s[start..])] && AllDigits(s[start..end])
  {
  }

  /** When not both heads are numbers, the first bytes decide, and equal ones are consumed alone. */
  lemma HeadsOfBytes(a: string, b: string)
    requires a != "" && b != "" && !(IsDigit(a[0]) && IsDigit(b[0]))
    ensures CompareTokens(Head(a), Head(b)) == Sign(a[0] as int - b[0] as int)
    ensures a[0] == b[0] ==> HeadLength(a) == HeadLength(b) == 1
  {
  }

  lemma CompareStep(left: string, l: nat, right: string, r: nat)
    requires l < |left| && r < |right|
    ensures var first := CompareTokens(Head(left[l..]), Head(right[r..]));
      Compare(Tokens(left[l..]), Tokens(right[r..])) ==
        if first != 0 then first
        else Compare(Tokens(left[l + HeadLength(left[l..])..]), Tokens(right[r + HeadLength(right[r..])..]))
  {
    hide Head, HeadLength, Less, CompareTokens;
    TokensRest(left, l);
    TokensRest(right, r);
  }

  lemma TokensRest(s: string, i: nat)
    requires i < |s|
    ensures Tokens(s[i..]) != [] && Tokens(s[i..])[0] == Head(s[i..])
    ensures Tokens(s[i..])[1..] == Tokens(s[i + HeadLength(s[i..])..])
  {
    hide Head, HeadLength;
    assert s[i..][HeadLength(s[i..])..] == s[i + HeadLength(s[i..])..];
  }

  lemma EndOfEither(a: string, b: string)
    requires a == "" || b == ""
    ensures Compare(Tokens(a), Tokens(b)) == if a != "" then 1 else if b != "" then -1 else 0
  {
  }
}
