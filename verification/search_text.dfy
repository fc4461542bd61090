/** Search texts: case folding of UTF-8 bytes without a locale, and splitting into words. */
module SearchText {

  // ----- folding -----

  const CYRILLIC: char := '\U{D0}'
  const CYRILLIC_NEXT: char := '\U{D1}'

  function Byte(n: nat): char
    requires n < 0x100
  {
    n as char
  }

  /** Second bytes of the Russian capital letters, all of them after `CYRILLIC`. */
  predicate IsCapital(c: char) {
    c as int == 0x81 || 0x90 <= c as int <= 0xAF
  }

  /** The small letter to a capital with this second byte. */
  function SmallLetter(c: char): (r: string)
    requires IsCapital(c)
    ensures |r| == 2
  {
    if c as int == 0x81 then [CYRILLIC_NEXT, Byte(0x91)]
    else if c as int <= 0x9F then [CYRILLIC, Byte(c as int + 0x20)]
    else [CYRILLIC_NEXT, Byte(c as int - 0x20)]
  }

  function LowerByte(c: char): char {
    if 'A' <= c <= 'Z' then Byte(c as int + 0x20) else c
  }

  predicate CapitalAt(s: string, i: nat) {
    i + 1 < |s| && s[i] == CYRILLIC && IsCapital(s[i + 1])
  }

  /** The text from i on with small letters. */
  function Folded(s: string, i: nat): (r: string)
    requires i <= |s|
    ensures |r| == |s| - i
    decreases |s| - i
  {
    if i == |s| then ""
    else if CapitalAt(s, i) then SmallLetter(s[i + 1]) + Folded(s, i + 2)
    else [LowerByte(s[i])] + Folded(s, i + 1)
  }

  function Lower(s: string): string { Folded(s, 0) }

  method LowerSearchText(value: string) returns (r: string)
    ensures r == Lower(value)
  {
    hide SmallLetter, LowerByte, IsCapital;
    r := "";
    var index := 0;
    while index < |value|
      invariant index <= |value| && r + Folded(value, index) == Lower(value)
    {
      var current := value[index];
      if index + 1 < |value| && current == CYRILLIC {
        var next := value[index + 1];
        if IsCapital(next) {
          assert r + (SmallLetter(next) + Folded(value, index + 2)) == r + SmallLetter(next) + Folded(value, index + 2);
          r, index := r + SmallLetter(next), index + 2;
          continue;
        }
      }
      assert r + ([LowerByte(current)] + Folded(value, index + 1)) == r + [LowerByte(current)] + Folded(value, index + 1);
      r, index := r + [LowerByte(current)], index + 1;
    }
    assert r + "" == r;
  }

  predicate IsSpace(c: char) { c == ' ' || 0x09 <= c as int <= 0x0D }

  /** A byte that goes on with a character of UTF-8. */
  predicate Continues(c: char) { 0x80 <= c as int < 0xC0 }

  predicate SameClass(a: char, b: char) { (IsSpace(a) <==> IsSpace(b)) && (Continues(a) <==> Continues(b)) }

  lemma LettersKeepClass(c: char)
    ensures SameClass(LowerByte(c), c)
    ensures IsCapital(c) ==> SameClass(SmallLetter(c)[0], CYRILLIC) && SameClass(SmallLetter(c)[1], c)
  {
  }

  /** Folding keeps white space and the beginnings of characters where they are, so a folded text has its
      words in the same places and as many characters. */
  lemma {:induction false} FoldingKeepsPlaces(s: string, i: nat, k: nat)
    requires i <= k < |s|
    ensures SameClass(Folded(s, i)[k - i], s[k])
    decreases |s| - i
  {
    hide SmallLetter, LowerByte, IsCapital, SameClass;
    LettersKeepClass(s[k]);
    if CapitalAt(s, i) {
      LettersKeepClass(s[i + 1]);
      if k >= i + 2 { FoldingKeepsPlaces(s, i + 2, k); }
    } else if k > i {
      FoldingKeepsPlaces(s, i + 1, k);
    }
  }

  /** A folded text holds no capital, of either alphabet. */
  lemma {:induction false} FoldedHasNoCapital(s: string, i: nat, k: nat)
    requires i <= |s| && k < |Folded(s, i)|
    ensures var r := Folded(s, i); !('A' <= r[k] <= 'Z') && !CapitalAt(r, k)
    decreases |s| - i
  {
    if i < |s| {
      var step := if CapitalAt(s, i) then 2 else 1;
      var rest := Folded(s, i + step);
      if k >= step {
        FoldedHasNoCapital(s, i + step, k - step);
      } else if k + 1 == step && rest != "" {
        CapitalByteStays(s, i + step);
      }
    }
  }

  lemma CapitalByteStays(s: string, i: nat)
    requires i < |s|
    ensures IsCapital(Folded(s, i)[0]) ==> Folded(s, i)[0] == s[i]
  {
  }

  lemma {:induction false} NoCapitalNothingFolds(s: string, i: nat)
    requires i <= |s| && forall k :: i <= k < |s| ==> !('A' <= s[k] <= 'Z') && !CapitalAt(s, k)
    ensures Folded(s, i) == s[i..]
    decreases |s| - i
  {
    if i < |s| {
      NoCapitalNothingFolds(s, i + 1);
      assert s[i..] == [s[i]] + s[i + 1..];
    }
  }

  /** Folding again changes nothing. */
  lemma LowerIsIdempotent(s: string)
    ensures Lower(Lower(s)) == Lower(s)
  {
    var r := Lower(s);
    forall k | 0 <= k < |r| ensures !('A' <= r[k] <= 'Z') && !CapitalAt(r, k) { FoldedHasNoCapital(s, 0, k); }
    NoCapitalNothingFolds(r, 0);
    assert r[0..] == r;
  }

  // ----- what folding means -----

  /** A Unicode character by its number. */
  type Point = n: nat | n < 0x11_0000

  /** UTF-8, section 3 of RFC 3629. */
  function Utf8(p: Point): string {
    if p < 0x80 then [Byte(p)]
    else if p < 0x800 then [Byte(0xC0 + p / 0x40), Byte(0x80 + p % 0x40)]
    else if p < 0x1_0000 then [Byte(0xE0 + p / 0x1000), Byte(0x80 + p / 0x40 % 0x40), Byte(0x80 + p % 0x40)]
    else [Byte(0xF0 + p / 0x4_0000), Byte(0x80 + p / 0x1000 % 0x40), Byte(0x80 + p / 0x40 % 0x40), Byte(0x80 + p % 0x40)]
  }

  function Encode(text: seq<Point>): string {
    if text == [] then "" else Utf8(text[0]) + Encode(text[1..])
  }

  /** The small letter of an ASCII or Russian capital, any other character itself. */
  function Small(p: Point): Point {
    if 'A' as int <= p <= 'Z' as int then p - 'A' as int + 'a' as int
    else if 0x410 <= p <= 0x42F then p - 0x410 + 0x430
    else if p == 0x401 then 0x451
    else p
  }

  function AllSmall(text: seq<Point>): (r: seq<Point>)
    ensures |r| == |text| && forall i :: 0 <= i < |text| ==> r[i] == Small(text[i])
  {
    seq(|text|, i requires 0 <= i < |text| => Small(text[i]))
  }

  lemma {:induction false} FoldedFrom(a: string, b: string, i: nat)
    requires i <= |b|
    ensures Folded(a + b, |a| + i) == Folded(b, i)
    decreases |b| - i
  {
    if i < |b| {
      assert (a + b)[|a| + i] == b[i];
      assert i + 1 < |b| ==> (a + b)[|a| + i + 1] == b[i + 1];
      FoldedFrom(a, b, if CapitalAt(b, i) then i + 2 else i + 1);
    }
  }

  /** Bytes that are neither a Russian capital's nor ASCII capitals pass through. */
  lemma {:induction false} PlainBytesPass(s: string, i: nat, n: nat)
    requires i <= n <= |s| && forall k :: i <= k < n ==> !CapitalAt(s, k) && LowerByte(s[k]) == s[k]
    ensures Folded(s, i) == s[i..n] + Folded(s, n)
    decreases n - i
  {
    hide SmallLetter, CapitalAt, LowerByte;
    if i < n {
      PlainBytesPass(s, i + 1, n);
      assert s[i..n] == [s[i]] + s[i + 1..n];
    }
  }

  lemma TwoBytes(p: Point)
    requires 0x80 <= p < 0x800
    ensures p / 0x40 == 0x10 && p % 0x40 == 1 <==> p == 0x401
    ensures p / 0x40 == 0x10 && 0x10 <= p % 0x40 <= 0x2F <==> 0x410 <= p <= 0x42F
  {
  }

  lemma CapitalIsTwoBytes(p: Point)
    requires 0x80 <= p < 0x800
    ensures var u := Utf8(p);
      && (u[0] == CYRILLIC && IsCapital(u[1]) <==> p == 0x401 || 0x410 <= p <= 0x42F)
      && (u[0] == CYRILLIC && IsCapital(u[1]) ==> SmallLetter(u[1]) == Utf8(Small(p)))
  {
    TwoBytes(p);
  }

  lemma OneCharacterFolds(p: Point, rest: string)
    ensures Folded(Utf8(p) + rest, 0) == Utf8(Small(p)) + Folded(Utf8(p) + rest, |Utf8(p)|)
  {
    var u := Utf8(p);
    var s := u + rest;
    if 0x80 <= p < 0x800 { CapitalIsTwoBytes(p); }
    if p == 0x401 || 0x410 <= p <= 0x42F {
      assert s[0] == u[0] && s[1] == u[1] && CapitalAt(s, 0);
    } else if p < 0x80 {
      assert s[0] == u[0] && !CapitalAt(s, 0);
    } else {
      forall k | 0 <= k < |u| ensures !CapitalAt(s, k) && LowerByte(s[k]) == s[k] {
        assert s[k] == u[k] && (k + 1 < |u| ==> s[k + 1] == u[k + 1]);
        assert k > 0 ==> 0x80 <= u[k] as int < 0xC0;
      }
      PlainBytesPass(s, 0, |u|);
      assert s[0..|u|] == u;
    }
  }

  /** Folding the bytes of a text is making every character small: a capital letter of either alphabet becomes
      its small letter, and every other character stays. */
  lemma {:induction false} FoldingIsByCharacter(text: seq<Point>)
    ensures Lower(Encode(text)) == Encode(AllSmall(text))
  {
    hide Folded, Utf8, Small;
    if text == [] {
      assert Lower("") == "" by { NothingFolds(); }
    } else {
      var u, rest := Utf8(text[0]), Encode(text[1..]);
      FoldingIsByCharacter(text[1..]);
      OneCharacterFolds(text[0], rest);
      FoldedFrom(u, rest, 0);
      assert AllSmall(text)[1..] == AllSmall(text[1..]);
    }
  }

  lemma NothingFolds()
    ensures Lower("") == ""
  {
  }

  // ----- words -----

  function RunEnd(s: string, i: nat): (e: nat)
    requires i <= |s|
    ensures i <= e <= |s| && (forall k :: i <= k < e ==> !IsSpace(s[k])) && (e < |s| ==> IsSpace(s[e]))
    decreases |s| - i
  {
    if i == |s| || IsSpace(s[i]) then i else RunEnd(s, i + 1)
  }

  /** What repeated extraction from a stream gives, from i on. */
  function Words(s: string, i: nat): seq<string>
    requires i <= |s|
    decreases |s| - i
  {
    if i == |s| then []
    else if IsSpace(s[i]) then Words(s, i + 1)
    else [s[i..RunEnd(s, i)]] + Words(s, RunEnd(s, i))
  }

  /** A longest run without white space. */
  predicate IsWord(s: string, a: nat, b: nat) {
    && a < b <= |s| && (forall k :: a <= k < b ==> !IsSpace(s[k]))
    && (a > 0 ==> IsSpace(s[a - 1])) && (b < |s| ==> IsSpace(s[b]))
  }

  ghost predicate IsWordFrom(s: string, i: nat, w: string) {
    exists a: nat, b: nat :: i <= a && IsWord(s, a, b) && s[a..b] == w
  }

  /** The words are the longest runs without white space, all of them and nothing else. */
  lemma {:induction false} WordsAreTheRuns(s: string, i: nat, w: string)
    requires i <= |s| && (0 < i < |s| ==> IsSpace(s[i - 1]) || IsSpace(s[i]))
    ensures w in Words(s, i) <==> IsWordFrom(s, i, w)
    decreases |s| - i
  {
    if i < |s| {
      if IsSpace(s[i]) {
        WordsAreTheRuns(s, i + 1, w);
        assert forall a: nat, b: nat :: i <= a && IsWord(s, a, b) ==> i + 1 <= a;
      } else {
        var e := RunEnd(s, i);
        WordsAreTheRuns(s, e, w);
        assert IsWord(s, i, e);
        assert forall a: nat, b: nat :: i <= a && IsWord(s, a, b) ==> (a == i && b == e) || e <= a;
      }
    }
  }

  method SplitWords(s: string) returns (words: seq<string>)
    ensures words == Words(s, 0)
  {
    words := [];
    var i := 0;
    while i < |s|
      invariant i <= |s| && words + Words(s, i) == Words(s, 0)
    {
      if IsSpace(s[i]) {
        i := i + 1;
        continue;
      }
      var e := i;
      while e < |s| && !IsSpace(s[e])
        invariant i <= e <= |s| && RunEnd(s, e) == RunEnd(s, i)
      {
        e := e + 1;
      }
      assert words + ([s[i..e]] + Words(s, e)) == words + [s[i..e]] + Words(s, e);
      words, i := words + [s[i..e]], e;
    }
    assert words + [] == words;
  }

  /** The words a search looks for. */
  function SearchWords(search: string): seq<string> { Words(Lower(search), 0) }

  /** They are the folded words of the search text as it was typed. */
  lemma SearchWordsAreFoldedWords(search: string, w: string)
    ensures w in SearchWords(search) <==>
      exists a: nat, b: nat :: IsWord(search, a, b) && w == Lower(search)[a..b]
  {
    hide Words, Folded;
    var r := Lower(search);
    forall k | 0 <= k < |search| ensures IsSpace(r[k]) <==> IsSpace(search[k]) { FoldingKeepsPlaces(search, 0, k); }
    WordsAreTheRuns(r, 0, w);
    assert forall a: nat, b: nat :: IsWord(r, a, b) <==> IsWord(search, a, b);
    assert IsWordFrom(r, 0, w) <==> exists a: nat, b: nat :: IsWord(r, a, b) && r[a..b] == w;
  }
}
