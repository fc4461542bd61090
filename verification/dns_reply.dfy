/** The DNS probe: building a question and checking the reply, sections 4.1.1 to 4.1.4 of RFC 1035. */
module DnsReply {
  import opened Basics

  type Byte = b: int | 0 <= b < 256

  datatype Error =
    | ShortReply | ShortQuery | UnmatchedReply | ErrorReply | QuestionMismatch
    | TruncatedOwner | TruncatedPointer | ForwardPointer | InvalidLabel
    | TruncatedRecord | TruncatedData | NoAddresses
    | NotAscii | InvalidLabels | NameTooLong

  datatype Outcome<T> = Ok(value: T) | Err(error: Error)

  function Pair(s: seq<Byte>, i: nat): nat
    requires i + 2 <= |s|
  {
    256 * (s[i] as int) + s[i + 1] as int
  }

  function Bytes16(n: nat): (s: seq<Byte>)
    requires n < 0x10000
    ensures |s| == 2 && Pair(s, 0) == n
  {
    [n / 256, n % 256]
  }

  // ----- what a message holds -----

  /** An owner name: labels ended by the root, or by a pointer to an earlier place in the message. */
  datatype Owner = Root(labels: seq<seq<Byte>>) | Pointer(labels: seq<seq<Byte>>, target: nat)

  datatype Record = Record(owner: Owner, kind: nat, cls: nat, ttl: seq<Byte>, data: seq<Byte>)

  predicate ValidLabels(labels: seq<seq<Byte>>) {
    forall l :: l in labels ==> 1 <= |l| <= 63
  }

  function EncodeLabels(labels: seq<seq<Byte>>): seq<Byte>
    requires ValidLabels(labels)
  {
    if labels == [] then [] else [|labels[0]|] + labels[0] + EncodeLabels(labels[1..])
  }

  /** Pointers fit in fourteen bits and lead strictly backward from where they stand. */
  predicate ValidOwner(owner: Owner, position: nat) {
    && ValidLabels(owner.labels)
    && (owner.Pointer? ==> owner.target < 0x4000 && owner.target < position + |EncodeLabels(owner.labels)|)
  }

  function EncodeOwner(owner: Owner): seq<Byte>
    requires ValidLabels(owner.labels) && (owner.Pointer? ==> owner.target < 0x4000)
  {
    EncodeLabels(owner.labels) + match owner
      case Root(_) => [0]
      case Pointer(_, target) => [0xC0 + target / 256, target % 256]
  }

  predicate ValidRecord(r: Record, position: nat) {
    ValidOwner(r.owner, position) && r.kind < 0x10000 && r.cls < 0x10000 && |r.ttl| == 4 && |r.data| < 0x10000
  }

  function EncodeRecord(r: Record): seq<Byte>
    requires ValidLabels(r.owner.labels) && (r.owner.Pointer? ==> r.owner.target < 0x4000)
    requires r.kind < 0x10000 && r.cls < 0x10000 && |r.data| < 0x10000
  {
    EncodeOwner(r.owner) + Bytes16(r.kind) + Bytes16(r.cls) + r.ttl + Bytes16(|r.data|) + r.data
  }

  /** These records stand one after the other from this position on, up to `end`. */
  ghost predicate RecordsAt(s: seq<Byte>, position: nat, records: seq<Record>, end: nat)
    decreases |records|
  {
    if records == [] then end == position
    else
      && ValidRecord(records[0], position) && At(s, position, EncodeRecord(records[0]))
      && RecordsAt(s, position + |EncodeRecord(records[0])|, records[1..], end)
  }

  predicate At(s: seq<Byte>, position: nat, part: seq<Byte>) {
    position + |part| <= |s| && s[position..position + |part|] == part
  }

  predicate IsAddress(r: Record) { r.kind == 1 && r.cls == 1 && |r.data| == 4 }

  function Addresses(records: seq<Record>): nat {
    if records == [] then 0 else (if IsAddress(records[0]) then 1 else 0) + Addresses(records[1..])
  }

  // ----- walking an owner name -----

  function WalkOwner(s: seq<Byte>, offset: nat): Outcome<nat>
    decreases |s| - offset
  {
    if offset >= |s| then Err(TruncatedOwner)
    else
      var length := s[offset] as int;
      if length == 0 then Ok(offset + 1)
      else if length >= 0xC0 then
        if offset + 1 >= |s| then Err(TruncatedPointer)
        else if (length - 0xC0) * 256 + s[offset + 1] as int >= offset then Err(ForwardPointer)
        else Ok(offset + 2)
      else if length > 63 || offset + 1 + length > |s| then Err(InvalidLabel)
      else WalkOwner(s, offset + 1 + length)
  }

  lemma AtSplits(s: seq<Byte>, position: nat, a: seq<Byte>, b: seq<Byte>)
    ensures At(s, position, a + b) <==> At(s, position, a) && At(s, position + |a|, b)
  {
    if At(s, position, a + b) {
      assert a == (a + b)[..|a|] && b == (a + b)[|a|..];
    }
  }

  function OneLabel(text: seq<Byte>): seq<Byte>
    requires 1 <= |text| <= 63
  {
    [|text|] + text
  }

  lemma EncodeMoreLabels(text: seq<Byte>, owner: Owner)
    requires 1 <= |text| <= 63 && ValidLabels(owner.labels) && (owner.Pointer? ==> owner.target < 0x4000)
    ensures var longer := owner.(labels := [text] + owner.labels);
      && ValidLabels(longer.labels)
      && EncodeLabels(longer.labels) == OneLabel(text) + EncodeLabels(owner.labels)
      && EncodeOwner(longer) == OneLabel(text) + EncodeOwner(owner)
  {
    assert ([text] + owner.labels)[1..] == owner.labels;
    assert EncodeLabels([text] + owner.labels) == OneLabel(text) + EncodeLabels(owner.labels);
  }

  lemma WalkOverLabel(s: seq<Byte>, offset: nat, text: seq<Byte>)
    requires 1 <= |text| <= 63 && At(s, offset, OneLabel(text))
    ensures WalkOwner(s, offset) == WalkOwner(s, offset + |OneLabel(text)|)
  {
    assert s[offset] == s[offset..offset + |OneLabel(text)|][0];
  }

  lemma WalkOverEnd(s: seq<Byte>, offset: nat, owner: Owner)
    requires owner.labels == [] && ValidOwner(owner, offset) && At(s, offset, EncodeOwner(owner))
    ensures WalkOwner(s, offset) == Ok(offset + |EncodeOwner(owner)|)
  {
    var code := EncodeOwner(owner);
    assert s[offset] == s[offset..offset + |code|][0] == code[0];
    if owner.Pointer? {
      assert s[offset + 1] == s[offset..offset + |code|][1] == code[1];
    }
  }

  /** Every owner name that is well formed where it stands is walked to its end. */
  lemma {:induction false} WalkAcceptsOwners(s: seq<Byte>, offset: nat, owner: Owner)
    requires ValidOwner(owner, offset) && At(s, offset, EncodeOwner(owner))
    ensures WalkOwner(s, offset) == Ok(offset + |EncodeOwner(owner)|)
    decreases |owner.labels|
  {
    hide WalkOwner, EncodeOwner, At, OneLabel;
    if owner.labels == [] {
      WalkOverEnd(s, offset, owner);
    } else {
      var first, rest := owner.labels[0], owner.(labels := owner.labels[1..]);
      assert first in owner.labels && [first] + rest.labels == owner.labels;
      EncodeMoreLabels(first, rest);
      AtSplits(s, offset, OneLabel(first), EncodeOwner(rest));
      WalkOverLabel(s, offset, first);
      WalkAcceptsOwners(s, offset + |OneLabel(first)|, rest);
    }
  }

  /** Whatever is walked to its end is a well-formed owner name. */
  lemma {:induction false} WalkedIsOwner(s: seq<Byte>, offset: nat) returns (owner: Owner)
    requires WalkOwner(s, offset).Ok?
    ensures ValidOwner(owner, offset) && At(s, offset, EncodeOwner(owner))
    ensures WalkOwner(s, offset) == Ok(offset + |EncodeOwner(owner)|)
    decreases |s| - offset
  {
    hide EncodeOwner, EncodeLabels, At, OneLabel;
    var length := s[offset] as int;
    if length == 0 || length >= 0xC0 {
      owner := WalkedIsEnd(s, offset);
    } else {
      var text := s[offset + 1..offset + 1 + length];
      assert At(s, offset, OneLabel(text)) && |OneLabel(text)| == 1 + length by { LabelIsThere(s, offset); }
      var rest := WalkedIsOwner(s, offset + 1 + length);
      EncodeMoreLabels(text, rest);
      owner := rest.(labels := [text] + rest.labels);
      AtSplits(s, offset, OneLabel(text), EncodeOwner(rest));
    }
  }

  lemma WalkedIsEnd(s: seq<Byte>, offset: nat) returns (owner: Owner)
    requires WalkOwner(s, offset).Ok? && (s[offset] == 0 || s[offset] >= 0xC0)
    ensures ValidOwner(owner, offset) && At(s, offset, EncodeOwner(owner))
    ensures WalkOwner(s, offset) == Ok(offset + |EncodeOwner(owner)|)
  {
    var length := s[offset] as int;
    if length == 0 {
      owner := Root([]);
      assert EncodeOwner(owner) == [0];
    } else {
      owner := Pointer([], (length - 0xC0) * 256 + s[offset + 1] as int);
      assert EncodeOwner(owner) == [length, s[offset + 1]];
    }
  }

  lemma LabelIsThere(s: seq<Byte>, offset: nat)
    requires offset < |s| && 1 <= s[offset] <= 63 && offset + 1 + s[offset] as int <= |s|
    ensures At(s, offset, OneLabel(s[offset + 1..offset + 1 + s[offset] as int]))
    ensures |OneLabel(s[offset + 1..offset + 1 + s[offset] as int])| == 1 + s[offset] as int
  {
    var text := s[offset + 1..offset + 1 + s[offset] as int];
    assert s[offset..offset + 1 + |text|] == [s[offset]] + text;
  }

  // ----- walking the answer records -----

  datatype Step = Step(next: nat, addresses: nat)

  /** One record: where the next one starts, and whether it carries an IPv4 address. */
  function WalkRecord(s: seq<Byte>, offset: nat): Outcome<Step> {
    match WalkOwner(s, offset)
    case Err(e) => Err(e)
    case Ok(o) =>
      if o + 10 > |s| then Err(TruncatedRecord)
      else if o + 10 + Pair(s, o + 8) > |s| then Err(TruncatedData)
      else Ok(Step(o + 10 + Pair(s, o + 8),
                   if Pair(s, o) == 1 && Pair(s, o + 2) == 1 && Pair(s, o + 8) == 4 then 1 else 0))
  }

  function WalkRecords(s: seq<Byte>, offset: nat, n: nat): Outcome<Step>
    decreases n
  {
    if n == 0 then Ok(Step(offset, 0))
    else
      match WalkRecord(s, offset)
      case Err(e) => Err(e)
      case Ok(first) =>
        match WalkRecords(s, first.next, n - 1)
        case Err(e) => Err(e)
        case Ok(rest) => Ok(Step(rest.next, first.addresses + rest.addresses))
  }

  /** The fixed part of a record after its owner. */
  function Tail(r: Record): seq<Byte>
    requires r.kind < 0x10000 && r.cls < 0x10000 && |r.data| < 0x10000
  {
    Bytes16(r.kind) + Bytes16(r.cls) + r.ttl + Bytes16(|r.data|) + r.data
  }

  lemma RecordIsOwnerAndTail(r: Record, position: nat)
    requires ValidRecord(r, position)
    ensures EncodeRecord(r) == EncodeOwner(r.owner) + Tail(r)
  {
    hide EncodeOwner, Bytes16;
    var o := EncodeOwner(r.owner);
    var a, b, c, d, e := Bytes16(r.kind), Bytes16(r.cls), r.ttl, Bytes16(|r.data|), r.data;
    assert o + a + b + c + d + e == o + (a + b + c + d + e);
  }

  /** The tail holds the numbers the walk reads from it. */
  lemma TailReads(s: seq<Byte>, o: nat, r: Record)
    requires r.kind < 0x10000 && r.cls < 0x10000 && |r.data| < 0x10000 && |r.ttl| == 4 && At(s, o, Tail(r))
    ensures |Tail(r)| == 10 + |r.data| && o + |Tail(r)| <= |s|
    ensures o + 10 <= |s| && Pair(s, o) == r.kind && Pair(s, o + 2) == r.cls && Pair(s, o + 8) == |r.data|
  {
    hide Bytes16;
    var t := Tail(r);
    assert |t| == 10 + |r.data|;
    assert t[0..2] == Bytes16(r.kind) && t[2..4] == Bytes16(r.cls) && t[8..10] == Bytes16(|r.data|);
    PairAt(s, o, t, 0);
    PairAt(s, o, t, 2);
    PairAt(s, o, t, 8);
  }

  lemma PairAt(s: seq<Byte>, o: nat, t: seq<Byte>, i: nat)
    requires At(s, o, t) && i + 2 <= |t|
    ensures Pair(s, o + i) == Pair(t[i..i + 2], 0)
  {
    assert s[o..o + |t|][i] == s[o + i] && s[o..o + |t|][i + 1] == s[o + i + 1];
  }

  lemma {:induction false} WalkAcceptsRecords(s: seq<Byte>, offset: nat, records: seq<Record>, end: nat)
    requires RecordsAt(s, offset, records, end)
    ensures WalkRecords(s, offset, |records|) == Ok(Step(end, Addresses(records)))
    decreases |records|
  {
    hide EncodeOwner, Tail, EncodeRecord, At;
    if records != [] {
      WalkAcceptsRecord(s, offset, records[0]);
      WalkAcceptsRecords(s, offset + |EncodeRecord(records[0])|, records[1..], end);
    }
  }

  lemma WalkAcceptsRecord(s: seq<Byte>, offset: nat, r: Record)
    requires ValidRecord(r, offset) && At(s, offset, EncodeRecord(r))
    ensures WalkRecord(s, offset) == Ok(Step(offset + |EncodeRecord(r)|, if IsAddress(r) then 1 else 0))
  {
    hide EncodeOwner, Tail, EncodeRecord, At, Pair, WalkOwner, EncodeLabels;
    RecordIsOwnerAndTail(r, offset);
    AtSplits(s, offset, EncodeOwner(r.owner), Tail(r));
    WalkAcceptsOwners(s, offset, r.owner);
    TailReads(s, offset + |EncodeOwner(r.owner)|, r);
  }

  lemma WalkedIsRecord(s: seq<Byte>, offset: nat) returns (r: Record)
    requires WalkRecord(s, offset).Ok?
    ensures ValidRecord(r, offset) && At(s, offset, EncodeRecord(r))
    ensures WalkRecord(s, offset) == Ok(Step(offset + |EncodeRecord(r)|, if IsAddress(r) then 1 else 0))
  {
    hide EncodeOwner, Tail, EncodeRecord, At, WalkOwner, EncodeLabels;
    var owner := WalkedIsOwner(s, offset);
    var o := offset + |EncodeOwner(owner)|;
    var size := Pair(s, o + 8);
    r := Record(owner, Pair(s, o), Pair(s, o + 2), s[o + 4..o + 8], s[o + 10..o + 10 + size]);
    TailIsThere(s, o, r);
    RecordIsOwnerAndTail(r, offset);
    AtSplits(s, offset, EncodeOwner(owner), Tail(r));
  }

  lemma TailIsThere(s: seq<Byte>, o: nat, r: Record)
    requires o + 10 <= |s| && o + 10 + Pair(s, o + 8) <= |s| && r.kind == Pair(s, o) && r.cls == Pair(s, o + 2)
    requires r.ttl == s[o + 4..o + 8] && r.data == s[o + 10..o + 10 + Pair(s, o + 8)]
    ensures r.kind < 0x10000 && r.cls < 0x10000 && |r.data| < 0x10000
    ensures At(s, o, Tail(r)) && |Tail(r)| == 10 + |r.data|
  {
    Bytes16OfPair(s, o);
    Bytes16OfPair(s, o + 2);
    Bytes16OfPair(s, o + 8);
    hide Bytes16, Pair;
    var size := |r.data|;
    assert s[o..o + 10 + size] == s[o..o + 2] + s[o + 2..o + 4] + s[o + 4..o + 8] + s[o + 8..o + 10] + s[o + 10..o + 10 + size];
  }

  lemma Bytes16OfPair(s: seq<Byte>, i: nat)
    requires i + 2 <= |s|
    ensures Pair(s, i) < 0x10000 && Bytes16(Pair(s, i)) == s[i..i + 2]
  {
  }

  lemma {:induction false} WalkedAreRecords(s: seq<Byte>, offset: nat, n: nat) returns (records: seq<Record>)
    requires WalkRecords(s, offset, n).Ok?
    ensures |records| == n && RecordsAt(s, offset, records, WalkRecords(s, offset, n).value.next)
    ensures WalkRecords(s, offset, n).value.addresses == Addresses(records)
    decreases n
  {
    hide EncodeRecord, At, EncodeLabels, IsAddress;
    records := [];
    if n > 0 {
      var first := WalkedIsRecord(s, offset);
      var rest := WalkedAreRecords(s, offset + |EncodeRecord(first)|, n - 1);
      records := [first] + rest;
      assert records[1..] == rest;
    }
  }

  // ----- the reply -----

  /** A matching, complete, successful response with one question and some answers. */
  predicate GoodHeader(response: seq<Byte>, query: seq<Byte>)
    requires |query| >= 2
  {
    && |response| >= 12
    && Pair(response, 0) == Pair(query, 0)
    && Pair(response, 2) >= 0x8000
    && Pair(response, 2) / 0x200 % 2 == 0
    && Pair(response, 2) % 16 == 0
    && Pair(response, 4) == 1
    && Pair(response, 6) != 0
  }

  function LowerByte(b: Byte): Byte { if 65 <= b <= 90 then b + 32 else b }

  function Lower(s: seq<Byte>): seq<Byte> {
    seq(|s|, i requires 0 <= i < |s| => LowerByte(s[i]))
  }

  /** The reply repeats the question of the query, letter case aside. */
  predicate Echoes(response: seq<Byte>, query: seq<Byte>) {
    Lower(Part(response, 12, |query|)) == Lower(Part(query, 12, |query|))
  }

  /** A slice whose bounds are cut to the length. */
  function Part(s: seq<Byte>, start: nat, end: nat): seq<Byte> {
    var hi := Min(end, |s|);
    s[Min(start, hi)..hi]
  }

  /** For a query with a header, an echo has all of its question. */
  lemma EchoIsComplete(response: seq<Byte>, query: seq<Byte>)
    requires |response| >= 12 && |query| >= 12
    ensures Echoes(response, query) <==> |response| >= |query| && Lower(response[12..|query|]) == Lower(query[12..])
  {
    LowerKeepsLength(Part(response, 12, |query|));
    LowerKeepsLength(query[12..]);
    assert Part(query, 12, |query|) == query[12..];
    hide Lower;
    if |response| >= |query| { assert Part(response, 12, |query|) == response[12..|query|]; }
  }

  /** What the check answers, case by case. */
  function Checked(response: seq<Byte>, query: seq<Byte>): Outcome<nat> {
    if |response| < 12 then Err(ShortReply)
    else if |query| < 2 then Err(ShortQuery)
    else if Pair(response, 0) != Pair(query, 0) || Pair(response, 2) < 0x8000 then Err(UnmatchedReply)
    else if !GoodHeader(response, query) then Err(ErrorReply)
    else if !Echoes(response, query) then Err(QuestionMismatch)
    else
      match WalkRecords(response, |query|, Pair(response, 6))
      case Err(e) => Err(e)
      case Ok(step) => if step.addresses == 0 then Err(NoAddresses) else Ok(step.addresses)
  }

  /** The check accepts exactly the good replies whose announced answers are well-formed records, and
      counts their IPv4 addresses; a reply without any is refused. */
  lemma CheckedExactlyWhen(response: seq<Byte>, query: seq<Byte>, n: nat)
    ensures Checked(response, query) == Ok(n) <==>
      && |query| >= 2 && GoodHeader(response, query) && Echoes(response, query) && n > 0
      && exists records, end :: RecordsAt(response, |query|, records, end)
           && |records| == Pair(response, 6) && Addresses(records) == n
  {
    hide RecordsAt, WalkRecords, Lower, Addresses;
    if |query| >= 2 && GoodHeader(response, query) {
      var answers := Pair(response, 6);
      forall records, end | RecordsAt(response, |query|, records, end) && |records| == answers
        ensures WalkRecords(response, |query|, answers) == Ok(Step(end, Addresses(records)))
      {
        WalkAcceptsRecords(response, |query|, records, end);
      }
      if WalkRecords(response, |query|, answers).Ok? {
        var records := WalkedAreRecords(response, |query|, answers);
        assert RecordsAt(response, |query|, records, WalkRecords(response, |query|, answers).value.next);
      }
    }
  }

  /** The check as it runs: every read is inside the reply, and both loops end. */
  method CheckDnsReply(response: seq<Byte>, query: seq<Byte>) returns (r: Outcome<nat>)
    ensures r == Checked(response, query)
  {
    hide WalkRecords, WalkRecord, Lower;
    if |response| < 12 {
      return Err(ShortReply);
    }
    if |query| < 2 {
      return Err(ShortQuery);
    }
    var identifier, flags := Pair(response, 0), Pair(response, 2);
    var questions, answers := Pair(response, 4), Pair(response, 6);
    if identifier != Pair(query, 0) || flags < 0x8000 {
      return Err(UnmatchedReply);
    }
    if flags / 0x200 % 2 == 1 || flags % 16 != 0 || questions != 1 || answers == 0 {
      return Err(ErrorReply);
    }
    if Lower(Part(response, 12, |query|)) != Lower(Part(query, 12, |query|)) {
      return Err(QuestionMismatch);
    }
    var offset: nat, addresses: nat, left: nat := |query|, 0, answers;
    while left > 0
      invariant left <= answers
      invariant WalkRecords(response, |query|, answers) == Counted(addresses, WalkRecords(response, offset, left))
    {
      NextRecord(response, offset, left, addresses);
      var step := ReadRecord(response, offset);
      if step.Err? {
        return Err(step.error);
      }
      offset, addresses, left := step.value.next, addresses + step.value.addresses, left - 1;
    }
    NoMoreRecords(response, offset);
    r := if addresses == 0 then Err(NoAddresses) else Ok(addresses);
  }

  lemma LowerKeepsLength(s: seq<Byte>)
    ensures |Lower(s)| == |s|
  {
  }

  function Counted(addresses: nat, outcome: Outcome<Step>): Outcome<Step> {
    match outcome
    case Err(e) => Err(e)
    case Ok(step) => Ok(step.(addresses := addresses + step.addresses))
  }

  lemma NextRecord(s: seq<Byte>, offset: nat, left: nat, addresses: nat)
    requires left > 0
    ensures Counted(addresses, WalkRecords(s, offset, left)) ==
      match WalkRecord(s, offset)
      case Err(e) => Err(e)
      case Ok(first) => Counted(addresses + first.addresses, WalkRecords(s, first.next, left - 1))
  {
  }

  lemma NoMoreRecords(s: seq<Byte>, offset: nat)
    ensures WalkRecords(s, offset, 0) == Ok(Step(offset, 0))
  {
  }

  method ReadRecord(s: seq<Byte>, start: nat) returns (r: Outcome<Step>)
    ensures r == WalkRecord(s, start)
  {
    var offset := start;
    while true
      invariant WalkOwner(s, start) == WalkOwner(s, offset)
      decreases |s| - offset
    {
      if offset >= |s| {
        return Err(TruncatedOwner);
      }
      var length := s[offset] as int;
      offset := offset + 1;
      if length == 0 {
        break;
      }
      if length >= 0xC0 {
        if offset >= |s| {
          return Err(TruncatedPointer);
        }
        var pointer := (length - 0xC0) * 256 + s[offset] as int;
        if pointer >= offset - 1 {
          return Err(ForwardPointer);
        }
        offset := offset + 1;
        break;
      }
      if length > 63 || offset + length > |s| {
        return Err(InvalidLabel);
      }
      offset := offset + length;
    }
    assert WalkOwner(s, start) == Ok(offset);
    if offset + 10 > |s| {
      return Err(TruncatedRecord);
    }
    var kind, cls, size := Pair(s, offset), Pair(s, offset + 2), Pair(s, offset + 8);
    offset := offset + 10;
    if offset + size > |s| {
      return Err(TruncatedData);
    }
    r := Ok(Step(offset + size, if kind == 1 && cls == 1 && size == 4 then 1 else 0));
  }

  // ----- the query -----

  /** The name without trailing dots. */
  function Stripped(name: string): string {
    if name != "" && name[|name| - 1] == '.' then Stripped(name[..|name| - 1]) else name
  }

  /** The pieces between the dots; there is always at least one. */
  function Split(name: string): (pieces: seq<string>)
    ensures pieces != []
  {
    if name == "" then [""]
    else
      var rest := Split(name[1..]);
      if name[0] == '.' then [""] + rest else [[name[0]] + rest[0]] + rest[1..]
  }

  function Joined(pieces: seq<string>): string
    requires pieces != []
  {
    if |pieces| == 1 then pieces[0] else pieces[0] + "." + Joined(pieces[1..])
  }

  /** Splitting loses nothing, and no piece holds a dot. */
  lemma {:induction false} SplitJoins(name: string)
    ensures Joined(Split(name)) == name
    ensures forall p :: p in Split(name) ==> '.' !in p
  {
    PiecesHaveNoDot(name);
    if name != "" {
      var rest := Split(name[1..]);
      SplitJoins(name[1..]);
      assert name == [name[0]] + name[1..];
      if name[0] == '.' {
        assert ([""] + rest)[1..] == rest;
      } else {
        assert ([[name[0]] + rest[0]] + rest[1..])[1..] == rest[1..];
      }
    }
  }

  lemma {:induction false} PiecesHaveNoDot(name: string)
    ensures forall p :: p in Split(name) ==> '.' !in p
  {
    if name != "" {
      PiecesHaveNoDot(name[1..]);
      var rest := Split(name[1..]);
      assert rest[0] in rest;
      assert name[0] != '.' ==> forall p :: p in [[name[0]] + rest[0]] + rest[1..] ==> p == [name[0]] + rest[0] || p in rest;
    }
  }

  predicate IsAscii(s: string) { forall i :: 0 <= i < |s| ==> s[i] as int < 128 }

  function Ascii(s: string): (bytes: seq<Byte>)
    requires IsAscii(s)
    ensures |bytes| == |s|
  {
    seq(|s|, i requires 0 <= i < |s| => s[i] as int)
  }

  function Labels(pieces: seq<string>): (labels: seq<seq<Byte>>)
    requires forall p :: p in pieces ==> IsAscii(p)
    ensures |labels| == |pieces| && forall i :: 0 <= i < |labels| ==> labels[i] == Ascii(pieces[i])
  {
    seq(|pieces|, i requires 0 <= i < |pieces| => Ascii(pieces[i]))
  }

  /** An A/IN question for the name, with recursion desired. */
  function DnsPacket(name: string, identifier: nat): Outcome<seq<Byte>>
    requires identifier < 0x10000
  {
    var pieces := Split(Stripped(name));
    if exists p :: p in pieces && !IsAscii(p) then Err(NotAscii)
    else
      var labels := Labels(pieces);
      if !ValidLabels(labels) then Err(InvalidLabels)
      else
        var question := EncodeLabels(labels) + [0, 0, 1, 0, 1];
        if |question| > 259 then Err(NameTooLong)
        else Ok(Bytes16(identifier) + [1, 0, 0, 1, 0, 0, 0, 0, 0, 0] + question)
  }

  lemma HeaderPairs(header: seq<Byte>, rest: seq<Byte>, identifier: nat)
    requires identifier < 0x10000 && header == Bytes16(identifier) + [1, 0, 0, 1, 0, 0, 0, 0, 0, 0]
    ensures var packet := header + rest;
      Pair(packet, 0) == identifier && Pair(packet, 2) == 0x100 && Pair(packet, 4) == 1 && Pair(packet, 6) == 0
  {
    var packet := header + rest;
    assert forall i :: 0 <= i < 12 ==> packet[i] == header[i];
    assert header[0] == Bytes16(identifier)[0] && header[1] == Bytes16(identifier)[1];
  }

  /** A query is a header with this identifier and one question, whose owner is the name and whose
      walk ends right before the type and class; names are at most 255 bytes long. */
  lemma PacketIsWellFormed(name: string, identifier: nat)
    requires identifier < 0x10000 && DnsPacket(name, identifier).Ok?
    ensures var packet := DnsPacket(name, identifier).value; var owner := Root(Labels(Split(Stripped(name))));
      && 17 <= |packet| <= 271
      && Pair(packet, 0) == identifier && Pair(packet, 2) == 0x100 && Pair(packet, 4) == 1 && Pair(packet, 6) == 0
      && ValidOwner(owner, 12) && At(packet, 12, EncodeOwner(owner))
      && WalkOwner(packet, 12) == Ok(|packet| - 4)
      && packet[|packet| - 4..] == [0, 1, 0, 1]
  {
    hide Split, Stripped, EncodeLabels, WalkOwner, IsAscii, Labels;
    var packet := DnsPacket(name, identifier).value;
    var owner := Root(Labels(Split(Stripped(name))));
    var question := EncodeLabels(owner.labels) + [0, 0, 1, 0, 1];
    var header := Bytes16(identifier) + [1, 0, 0, 1, 0, 0, 0, 0, 0, 0];
    assert packet == header + question && packet[12..] == question;
    HeaderPairs(header, question, identifier);
    assert question == EncodeOwner(owner) + [0, 1, 0, 1];
    assert packet[|packet| - 4..] == question[|question| - 4..] == [0, 1, 0, 1];
    assert At(packet, 12, EncodeOwner(owner));
    WalkAcceptsOwners(packet, 12, owner);
  }

  // ----- an answer to the query -----

  /** Each record is valid where it stands, the first at this position. */
  ghost predicate ValidFrom(records: seq<Record>, position: nat)
    decreases |records|
  {
    records == [] || (ValidRecord(records[0], position) && ValidFrom(records[1..], position + |EncodeRecord(records[0])|))
  }

  ghost function EncodeAll(records: seq<Record>, position: nat): seq<Byte>
    requires ValidFrom(records, position)
    decreases |records|
  {
    if records == [] then [] else EncodeRecord(records[0]) + EncodeAll(records[1..], position + |EncodeRecord(records[0])|)
  }

  lemma {:induction false} EncodedStand(front: seq<Byte>, records: seq<Record>)
    requires ValidFrom(records, |front|)
    ensures var s := front + EncodeAll(records, |front|); RecordsAt(s, |front|, records, |s|)
    decreases |records|
  {
    hide EncodeRecord, ValidLabels, EncodeLabels;
    if records == [] {
      assert front + [] == front;
    } else {
      var first := EncodeRecord(records[0]);
      var rest := EncodeAll(records[1..], |front| + |first|);
      EncodedStand(front + first, records[1..]);
      assert front + first + rest == front + (first + rest);
      assert At(front + (first + rest), |front|, first);
    }
  }

  /** The reply of a server that found these records: recursion available, no error, the question repeated. */
  ghost function Answer(packet: seq<Byte>, records: seq<Record>): seq<Byte>
    requires |packet| >= 12 && |records| < 0x10000 && ValidFrom(records, |packet|)
  {
    AnswerFront(packet, |records|) + EncodeAll(records, |packet|)
  }

  /** The reply up to its records. */
  function AnswerFront(packet: seq<Byte>, n: nat): (front: seq<Byte>)
    requires |packet| >= 12 && n < 0x10000
    ensures |front| == |packet|
  {
    packet[..2] + [0x81, 0x80, 0, 1] + Bytes16(n) + [0, 0, 0, 0] + packet[12..]
  }

  lemma FrontBytes(packet: seq<Byte>, n: nat)
    requires |packet| >= 12 && n < 0x10000
    ensures var front := AnswerFront(packet, n);
      && front[0] == packet[0] && front[1] == packet[1] && front[2] == 0x81 && front[3] == 0x80 && front[4] == 0 && front[5] == 1
      && front[6] == Bytes16(n)[0] && front[7] == Bytes16(n)[1] && front[12..] == packet[12..]
  {
  }

  lemma AnswerHeader(packet: seq<Byte>, n: nat, tail: seq<Byte>)
    requires |packet| >= 12 && 0 < n < 0x10000
    ensures var reply := AnswerFront(packet, n) + tail;
      GoodHeader(reply, packet) && Echoes(reply, packet) && Pair(reply, 6) == n
  {
    hide AnswerFront, Lower;
    FrontBytes(packet, n);
    var front := AnswerFront(packet, n);
    var reply := front + tail;
    assert forall i :: 0 <= i < 8 ==> reply[i] == front[i];
    assert reply[12..|packet|] == front[12..];
    assert Part(reply, 12, |packet|) == packet[12..] && Part(packet, 12, |packet|) == packet[12..];
  }

  /** The probe accepts every such reply to its own query that holds an address, and counts the addresses. */
  lemma AnswerIsAccepted(name: string, identifier: nat, records: seq<Record>)
    requires identifier < 0x10000 && DnsPacket(name, identifier).Ok? && |records| < 0x10000 && Addresses(records) > 0
    requires ValidFrom(records, |DnsPacket(name, identifier).value|)
    ensures |DnsPacket(name, identifier).value| >= 12
    ensures var packet := DnsPacket(name, identifier).value; Checked(Answer(packet, records), packet) == Ok(Addresses(records))
  {
    hide DnsPacket, RecordsAt, Checked, GoodHeader, Echoes, ValidFrom, AnswerFront, EncodeAll;
    PacketIsWellFormed(name, identifier);
    var packet := DnsPacket(name, identifier).value;
    AnswerHeader(packet, |records|, EncodeAll(records, |packet|));
    EncodedStand(AnswerFront(packet, |records|), records);
    CheckedExactlyWhen(Answer(packet, records), packet, Addresses(records));
  }
}
