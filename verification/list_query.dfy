/** Searching, ordering and paging the configured lists. */
module ListQuery {
  import opened Basics
  import opened Text
  import opened NaturalOrder
  import SearchText

  /** A list as the query sees it: its id, its sort key and the lower-cased texts a search looks in. */
  datatype Row = Row(id: string, key: string, fields: seq<string>)

  datatype Query = Query(search: string, sort: string, order: string, offset: int, limit: int)

  datatype Page = Page(total: nat, filteredTotal: nat, offset: nat, items: seq<Row>)

  datatype Answer = Answer(page: Page) | BadRequest

  // ----- validation -----

  /** Characters of UTF-8 text: the bytes that do not continue one. */
  function Characters(bytes: string): nat {
    if bytes == "" then 0
    else Characters(bytes[..|bytes| - 1]) + (if SearchText.Continues(bytes[|bytes| - 1]) then 0 else 1)
  }

  predicate ValidQuery(q: Query) {
    && q.offset >= 0 && 1 <= q.limit <= 200
    && Characters(q.search) <= 256
    && (q.sort == "id" || q.sort == "name" || q.sort == "source")
    && (q.order == "asc" || q.order == "desc")
  }

  method CountCharacters(bytes: string) returns (n: nat)
    ensures n == Characters(bytes)
  {
    n := 0;
    for i := 0 to |bytes|
      invariant n == Characters(bytes[..i])
    {
      assert bytes[..i + 1][..i] == bytes[..i];
      if !SearchText.Continues(bytes[i]) { n := n + 1; }
    }
    assert bytes[..|bytes|] == bytes;
  }

  method Validate(q: Query) returns (ok: bool)
    ensures ok <==> ValidQuery(q)
  {
    if q.offset < 0 || q.limit < 1 || q.limit > 200 { return false; }
    var characters := CountCharacters(q.search);
    if characters > 256 { return false; }
    if q.sort != "id" && q.sort != "name" && q.sort != "source" { return false; }
    if q.order != "asc" && q.order != "desc" { return false; }
    return true;
  }

  // ----- search -----

  predicate OccursAt(field: string, word: string, i: nat) {
    i + |word| <= |field| && field[i..i + |word|] == word
  }

  predicate Contains(field: string, word: string) {
    exists i :: 0 <= i <= |field| && OccursAt(field, word, i)
  }

  /** Every word occurs in some field. */
  predicate Matches(words: seq<string>, row: Row) {
    forall w :: w in words ==> exists f :: f in row.fields && Contains(f, w)
  }

  function Filtered(words: seq<string>, rows: seq<Row>): (kept: seq<Row>)
    ensures forall r :: r in kept <==> r in rows && Matches(words, r)
  {
    if rows == [] then []
    else
      var last := rows[|rows| - 1];
      assert rows == rows[..|rows| - 1] + [last];
      Filtered(words, rows[..|rows| - 1]) + (if Matches(words, last) then [last] else [])
  }

  /** A word occurs in a field that has it between two other texts. */
  lemma ContainsMeans(field: string, word: string)
    ensures Contains(field, word) <==> exists before, after :: field == before + word + after
  {
    if Contains(field, word) {
      var i :| 0 <= i <= |field| && OccursAt(field, word, i);
      assert field == field[..i] + word + field[i + |word|..];
    }
    if before, after :| field == before + word + after {
      assert field[|before|..|before| + |word|] == word;
      assert OccursAt(field, word, |before|);
    }
  }

  /** More words keep fewer rows: searching for all words is searching the found rows for the remaining ones. */
  lemma {:induction false} WordsNarrow(a: seq<string>, b: seq<string>, rows: seq<Row>)
    ensures Filtered(a + b, rows) == Filtered(b, Filtered(a, rows)) && Filtered([], rows) == rows
    decreases |rows|
  {
    hide Contains, Matches, Filtered;
    if rows == [] {
      NoRowsNoneKept(a);
      NoRowsNoneKept(b);
      NoRowsNoneKept(a + b);
      NoRowsNoneKept([]);
    } else {
      var n := |rows| - 1;
      var front, last := rows[..n], rows[n];
      assert rows == front + [last];
      WordsNarrow(a, b, front);
      FilteredNext(a, front, last);
      FilteredNext(a + b, front, last);
      FilteredNext([], front, last);
      FilteredNext(b, Filtered(a, front), last);
      MatchesSplits(a, b, last);
      MatchesNothing(last);
      var kept, found := Filtered(a, front), Filtered(b, Filtered(a, front));
      assert kept + [] == kept && found + [] == found;
      assert Filtered(a, rows) == if Matches(a, last) then kept + [last] else kept;
    }
  }

  lemma NoRowsNoneKept(words: seq<string>)
    ensures Filtered(words, []) == []
  {
  }

  lemma MatchesNothing(row: Row)
    ensures Matches([], row)
  {
  }

  lemma FilteredNext(words: seq<string>, rows: seq<Row>, row: Row)
    ensures Filtered(words, rows + [row]) == Filtered(words, rows) + (if Matches(words, row) then [row] else [])
  {
    hide Matches;
    assert (rows + [row])[..|rows|] == rows;
  }

  lemma MatchesSplits(a: seq<string>, b: seq<string>, row: Row)
    ensures Matches(a + b, row) <==> Matches(a, row) && Matches(b, row)
  {
    hide Contains;
    assert forall w :: w in a + b <==> w in a || w in b;
  }

  // ----- order -----

  function CompareRows(q: Query, a: Row, b: Row): int {
    if q.sort == "id" then CompareText(a.key, b.key) else Compare(Tokens(a.key), Tokens(b.key))
  }

  /** The direction turns the key comparison around, never the tie-break by id. */
  predicate Before(q: Query, a: Row, b: Row) {
    var comparison := CompareRows(q, a, b);
    if comparison == 0 then Less(a.id, b.id)
    else if q.order == "desc" then comparison > 0
    else comparison < 0
  }

  /** Both directions are strict total orders of rows with distinct ids. */
  lemma BeforeIsTotal(q: Query, a: Row, b: Row)
    ensures !(Before(q, a, b) && Before(q, b, a)) && !Before(q, a, a)
    ensures a.id != b.id ==> Before(q, a, b) || Before(q, b, a)
  {
    hide Compare, Tokens, Less;
    LessIsTotal(a.id, b.id);
    LessIsTotal(a.id, a.id);
    CompareTextIsAntisymmetric(a.key, b.key);
    CompareIsAntisymmetric(Tokens(a.key), Tokens(b.key));
    CompareIsAntisymmetric(Tokens(a.key), Tokens(a.key));
  }

  lemma BeforeIsTransitive(q: Query, a: Row, b: Row, c: Row)
    requires Before(q, a, b) && Before(q, b, c)
    ensures Before(q, a, c)
  {
    hide Compare, Tokens, Less, CompareText;
    RowsChain(q, a, b, c);
    RowsChain(q, c, b, a);
    RowsChain(q, a, c, b);
    if CompareRows(q, a, b) == 0 && CompareRows(q, b, c) == 0 { LessIsTransitive(a.id, b.id, c.id); }
  }

  /** The key comparison is a total preorder. */
  lemma RowsChain(q: Query, a: Row, b: Row, c: Row)
    ensures CompareRows(q, a, b) == -CompareRows(q, b, a)
    ensures CompareRows(q, a, b) <= 0 && CompareRows(q, b, c) <= 0 ==> CompareRows(q, a, c) <= 0
    ensures CompareRows(q, a, b) < 0 && CompareRows(q, b, c) <= 0 ==> CompareRows(q, a, c) < 0
    ensures CompareRows(q, a, b) <= 0 && CompareRows(q, b, c) < 0 ==> CompareRows(q, a, c) < 0
  {
    hide Compare, Tokens, Less;
    if q.sort == "id" {
      TextsChain(a.key, b.key, c.key);
    } else {
      TokensChain(Tokens(a.key), Tokens(b.key), Tokens(c.key));
    }
  }

  lemma TextsChain(a: string, b: string, c: string)
    ensures CompareText(a, b) == -CompareText(b, a)
    ensures CompareText(a, b) <= 0 && CompareText(b, c) <= 0 ==> CompareText(a, c) <= 0
    ensures CompareText(a, b) < 0 && CompareText(b, c) <= 0 ==> CompareText(a, c) < 0
    ensures CompareText(a, b) <= 0 && CompareText(b, c) < 0 ==> CompareText(a, c) < 0
  {
    hide Less;
    CompareTextIsAntisymmetric(a, b);
    if Less(a, b) && Less(b, c) {
      LessIsTransitive(a, b, c);
      LessIsTotal(a, c);
    }
  }

  lemma TokensChain(a: seq<Token>, b: seq<Token>, c: seq<Token>)
    ensures Compare(a, b) == -Compare(b, a)
    ensures Compare(a, b) <= 0 && Compare(b, c) <= 0 ==> Compare(a, c) <= 0
    ensures Compare(a, b) < 0 && Compare(b, c) <= 0 ==> Compare(a, c) < 0
    ensures Compare(a, b) <= 0 && Compare(b, c) < 0 ==> Compare(a, c) < 0
  {
    hide Compare;
    CompareIsAntisymmetric(a, b);
    CompareIsAntisymmetric(b, c);
    CompareIsAntisymmetric(a, c);
    if Compare(a, b) <= 0 && Compare(b, c) <= 0 {
      CompareIsTransitive(a, b, c);
    }
  }

  // ----- sorting -----

  predicate Ordered(q: Query, rows: seq<Row>) {
    forall i, j :: 0 <= i < j < |rows| ==> Before(q, rows[i], rows[j])
  }

  predicate DistinctIds(rows: seq<Row>) {
    forall i, j :: 0 <= i < j < |rows| ==> rows[i].id != rows[j].id
  }

  ghost predicate SameRows(a: seq<Row>, b: seq<Row>) { forall r :: r in a <==> r in b }

  /** An order of the same rows is unique, so every page of one query cuts the same list, whatever
      algorithm sorts it and in whatever order the rows are found. */
  lemma {:induction false} OrderIsUnique(q: Query, a: seq<Row>, b: seq<Row>)
    requires Ordered(q, a) && Ordered(q, b) && SameRows(a, b)
    ensures a == b
    decreases |a|
  {
    hide Before;
    assert b != [] ==> b[0] in b;
    if a != [] {
      assert a[0] in a;
      var i :| 0 <= i < |b| && b[i] == a[0];
      var j :| 0 <= j < |a| && a[j] == b[0];
      BeforeIsTotal(q, a[0], b[0]);
      assert i == 0 && j == 0;
      RestHasSameRows(q, a, b);
      OrderIsUnique(q, a[1..], b[1..]);
      assert a == [a[0]] + a[1..] && b == [b[0]] + b[1..];
    }
  }

  lemma RestHasSameRows(q: Query, a: seq<Row>, b: seq<Row>)
    requires Ordered(q, a) && Ordered(q, b) && SameRows(a, b) && a != [] && b != [] && a[0] == b[0]
    ensures SameRows(a[1..], b[1..])
  {
    hide Before;
    BeforeIsTotal(q, a[0], a[0]);
    assert a == [a[0]] + a[1..] && b == [b[0]] + b[1..];
    assert a[0] !in a[1..] && b[0] !in b[1..];
    forall r ensures r in a[1..] <==> r in b[1..] {
      assert r in a <==> r == a[0] || r in a[1..];
      assert r in b <==> r == b[0] || r in b[1..];
    }
  }

  method Insert(q: Query, rows: seq<Row>, x: Row) returns (r: seq<Row>)
    requires Ordered(q, rows) && forall y :: y in rows ==> y.id != x.id
    ensures Ordered(q, r) && |r| == |rows| + 1 && forall y :: y in r <==> y in rows || y == x
  {
    hide Before;
    var i := 0;
    while i < |rows| && Before(q, rows[i], x)
      invariant 0 <= i <= |rows|
      invariant forall j :: 0 <= j < i ==> Before(q, rows[j], x)
    {
      i := i + 1;
    }
    forall j | i <= j < |rows| ensures Before(q, x, rows[j]) {
      BeforeIsTotal(q, rows[i], x);
      if j != i { BeforeIsTransitive(q, x, rows[i], rows[j]); }
    }
    r := rows[..i] + [x] + rows[i..];
    assert rows == rows[..i] + rows[i..];
  }

  /** The rows in the one order the query asks for. */
  method Sort(q: Query, rows: seq<Row>) returns (r: seq<Row>)
    requires DistinctIds(rows)
    ensures Ordered(q, r) && SameRows(r, rows) && |r| == |rows|
  {
    hide Ordered, Before;
    r := [];
    assert Ordered(q, r) by { NothingIsOrdered(q); }
    var i := 0;
    while i < |rows|
      invariant 0 <= i <= |rows| && |r| == i
      invariant Ordered(q, r) && SameRows(r, rows[..i])
    {
      assert forall y :: y in rows[..i] ==> y.id != rows[i].id;
      r := Insert(q, r, rows[i]);
      assert rows[..i + 1] == rows[..i] + [rows[i]];
      i := i + 1;
    }
    assert rows[..i] == rows;
  }

  lemma NothingIsOrdered(q: Query)
    ensures Ordered(q, [])
  {
  }

  /** How the keys of two rows compare: as texts when sorted by id, otherwise by their tokens. */
  predicate SmallerKey(q: Query, a: Row, b: Row) {
    if q.sort == "id" then Less(a.key, b.key) else TokensLess(Tokens(a.key), Tokens(b.key))
  }

  /** At the first difference a smaller number or byte, the end of the text, or a number against a byte above
      the digits. */
  predicate TokensLess(a: seq<Token>, b: seq<Token>) {
    exists n: nat :: n <= |a| && n < |b| && a[..n] == b[..n] && (n == |a| || TokenLess(a[n], b[n]))
  }

  predicate TokenLess(a: Token, b: Token) {
    match (a, b)
    case (Number(m), Number(n)) => m < n
    case (Byte(c), Byte(d)) => c < d
    case (Number(_), Byte(d)) => d > '9'
    case (Byte(c), Number(_)) => c <= '9'
  }

  lemma {:induction false} CompareMeansLess(a: seq<Token>, b: seq<Token>)
    ensures Compare(a, b) < 0 <==> TokensLess(a, b)
    decreases |a|
  {
    if a != [] && b != [] {
      CompareMeansLess(a[1..], b[1..]);
      if a[0] == b[0] {
        if TokensLess(a[1..], b[1..]) {
          var n: nat :| n <= |a[1..]| && n < |b[1..]| && a[1..][..n] == b[1..][..n] && (n == |a[1..]| || TokenLess(a[1..][n], b[1..][n]));
          assert a[..n + 1] == [a[0]] + a[1..][..n] && b[..n + 1] == [b[0]] + b[1..][..n];
        }
        if TokensLess(a, b) {
          var n: nat :| n <= |a| && n < |b| && a[..n] == b[..n] && (n == |a| || TokenLess(a[n], b[n]));
          assert n > 0;
          assert a[1..][..n - 1] == a[..n][1..] && b[1..][..n - 1] == b[..n][1..];
        }
      } else {
        forall n: nat | 0 < n <= |a| && n <= |b| ensures a[..n] != b[..n] { assert a[..n][0] == a[0] && b[..n][0] == b[0]; }
        assert a[..0] == b[..0];
      }
    } else if b != [] {
      assert a[..0] == b[..0];
    }
  }

  /** In an ordered list no later row has a smaller key when the order is ascending, none a larger key when it is
      descending, and rows with equal keys stand in the order of their ids either way. */
  lemma OrderMeansKeys(q: Query, rows: seq<Row>, i: nat, j: nat)
    requires Ordered(q, rows) && i < j < |rows|
    ensures q.order != "desc" ==> !SmallerKey(q, rows[j], rows[i])
    ensures q.order == "desc" ==> !SmallerKey(q, rows[i], rows[j])
    ensures !SmallerKey(q, rows[i], rows[j]) && !SmallerKey(q, rows[j], rows[i]) ==> Less(rows[i].id, rows[j].id)
  {
    hide Compare, Tokens, Less, TokensLess;
    var a, b := rows[i], rows[j];
    assert Before(q, a, b);
    LessIsTotal(a.key, b.key);
    CompareMeansLess(Tokens(a.key), Tokens(b.key));
    CompareMeansLess(Tokens(b.key), Tokens(a.key));
    CompareIsAntisymmetric(Tokens(a.key), Tokens(b.key));
  }

  // ----- paging -----

  /** Offsets past the end fall back to the start of the last page. */
  function PageOffset(n: nat, offset: nat, limit: nat): nat
    requires limit > 0
  {
    if n == 0 then 0 else if offset >= n then (n - 1) / limit * limit else offset
  }

  function PageItems(rows: seq<Row>, offset: nat, limit: nat): seq<Row>
    requires limit > 0
  {
    PageOffsetIsInside(|rows|, offset, limit);
    var begin := PageOffset(|rows|, offset, limit);
    rows[begin..begin + Min(|rows| - begin, limit)]
  }

  /** The offset is reached from zero in steps of the limit. */
  predicate OnWalk(offset: nat, limit: nat)
    requires limit > 0
  {
    offset == 0 || (offset >= limit && OnWalk(offset - limit, limit))
  }

  lemma {:induction false} MultiplesAreOnWalk(k: nat, limit: nat)
    requires limit > 0
    ensures OnWalk(k * limit, limit)
  {
    if k > 0 {
      MultiplesAreOnWalk(k - 1, limit);
      assert k * limit - limit == (k - 1) * limit;
    }
  }

  /** A late offset gets the last page of the walk from the start, and it is not empty. */
  lemma PageOffsetIsInside(n: nat, offset: nat, limit: nat)
    requires limit > 0
    ensures var begin := PageOffset(n, offset, limit);
      && begin <= n && (n > 0 ==> begin < n)
      && (offset < n ==> begin == offset)
      && (offset >= n > 0 ==> OnWalk(begin, limit) && n <= begin + limit)
  {
    if offset >= n > 0 {
      var k := (n - 1) / limit;
      assert n - 1 == k * limit + (n - 1) % limit;
      MultiplesAreOnWalk(k, limit);
    }
  }

  /** The pages a client gets at offset, offset + limit, ... while rows remain. */
  function Pages(rows: seq<Row>, offset: nat, limit: nat): seq<Row>
    requires limit > 0
    decreases |rows| - offset
  {
    if offset >= |rows| then [] else PageItems(rows, offset, limit) + Pages(rows, offset + limit, limit)
  }

  /** Walking the pages from the start gives every row once, in order. */
  lemma {:induction false} PagesCoverTheRows(rows: seq<Row>, offset: nat, limit: nat)
    requires limit > 0 && offset <= |rows|
    ensures Pages(rows, offset, limit) == rows[offset..]
    decreases |rows| - offset
  {
    if offset + limit < |rows| {
      PagesCoverTheRows(rows, offset + limit, limit);
      assert rows[offset..] == rows[offset..offset + limit] + rows[offset + limit..];
    }
  }

  /** Answers a list query. `rows` come from the map of lists, so their ids are distinct. */
  method BuildListPage(rows: seq<Row>, q: Query) returns (answer: Answer, ghost sorted: seq<Row>)
    requires DistinctIds(rows)
    ensures answer.BadRequest? <==> !ValidQuery(q)
    ensures answer.Answer? ==>
      && Ordered(q, sorted) && SameRows(sorted, Filtered(SearchText.SearchWords(q.search), rows)) && |sorted| == |Filtered(SearchText.SearchWords(q.search), rows)|
      && answer.page.total == |rows| && answer.page.filteredTotal == |sorted|
      && answer.page.offset == PageOffset(|sorted|, q.offset, q.limit)
      && answer.page.items == PageItems(sorted, q.offset, q.limit)
  {
    hide Ordered, Filtered, Matches, Characters;
    hide SearchText.Words, SearchText.Folded;
    sorted := [];
    var valid := Validate(q);
    if !valid {
      return BadRequest, sorted;
    }
    var lowered := SearchText.LowerSearchText(q.search);
    var words := SearchText.SplitWords(lowered);
    var kept := Search(words, rows);
    var ordered := Sort(q, kept);
    sorted := ordered;
    var n := |ordered|;
    PageOffsetIsInside(n, q.offset, q.limit);
    if n == 0 {
      return Answer(Page(|rows|, 0, 0, [])), sorted;
    }
    var begin := if q.offset >= n then (n - 1) / q.limit * q.limit else q.offset;
    var count := Min(n - begin, q.limit);
    var items := Slice(ordered, begin, begin + count);
    answer := Answer(Page(|rows|, n, begin, items));
  }

  method Search(words: seq<string>, rows: seq<Row>) returns (kept: seq<Row>)
    requires DistinctIds(rows)
    ensures kept == Filtered(words, rows) && DistinctIds(kept)
  {
    hide Matches;
    kept := [];
    var i := 0;
    while i < |rows|
      invariant 0 <= i <= |rows| && kept == Filtered(words, rows[..i]) && DistinctIds(kept)
    {
      assert rows[..i + 1][..i] == rows[..i];
      assert forall r :: r in kept ==> r in rows[..i];
      assert forall r :: r in rows[..i] ==> r.id != rows[i].id;
      if Matches(words, rows[i]) { kept := kept + [rows[i]]; }
      i := i + 1;
    }
    assert rows[..i] == rows;
  }

  method Slice(rows: seq<Row>, begin: nat, end: nat) returns (items: seq<Row>)
    requires begin <= end <= |rows|
    ensures items == rows[begin..end]
  {
    items := [];
    for index := begin to end
      invariant items == rows[begin..index]
    {
      items := items + [rows[index]];
    }
  }
}
