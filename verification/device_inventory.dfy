/** The device list: one entry per usable IPv4 address, folded from the router's host table. */
module DeviceInventory {
  import opened Basics
  import opened Text
  import OrderedKeys
  import opened DistinctValues

  /** A member of a host object; only strings and booleans matter. */
  datatype Field = Missing | Chars(text: string) | Flag(flag: bool) | OtherValue

  datatype Host = NotAnObject | Host(ip: Field, name: Field, hostname: Field, mac: Field, active: Field)

  /** What one usable host tells about its address. */
  datatype Observation = Observation(ip: string, name: Option<string>, mac: Option<string>, active: Option<bool>)

  datatype Entry = Entry(ipv4: string, name: Option<string>, mac: Option<string>, active: Option<bool>, conflict: bool)

  const MAXIMUM_HOSTS: nat := 2048
  const MAXIMUM_DEVICES: nat := 512

  // ----- reading a host -----

  /** A string of at most 320 bytes without control characters; anything else reads as empty. */
  function Cleaned(field: Field): string {
    match field
    case Chars(text) =>
      if |text| > 320 || exists i :: 0 <= i < |text| && (text[i] as int < 32 || text[i] as int == 127) then "" else text
    case _ => ""
  }

  predicate IsHex(c: char) { IsDigit(c) || 'a' <= c <= 'f' || 'A' <= c <= 'F' }

  function LowerChar(c: char): char { if 'A' <= c <= 'Z' then (c as int + 32) as char else c }

  predicate IsMac(mac: string) {
    |mac| == 17 && forall i :: 0 <= i < 17 ==> if i % 3 == 2 then mac[i] == ':' else IsHex(mac[i])
  }

  function NormalMac(mac: string): Option<string> {
    if IsMac(mac) then Some(seq(17, i requires 0 <= i < 17 => LowerChar(mac[i]))) else None
  }

  predicate SameLetter(c: char, d: char) {
    c == d || ('A' <= c <= 'F' && d as int == c as int + 32) || ('A' <= d <= 'F' && c as int == d as int + 32)
  }

  /** Two MACs are read as the same one exactly when they agree letter by letter, case aside. */
  lemma MacsAgreeExactlyWhen(a: string, b: string)
    requires IsMac(a) && IsMac(b)
    ensures NormalMac(a) == NormalMac(b) <==> forall i :: 0 <= i < 17 ==> SameLetter(a[i], b[i])
  {
    var x, y := NormalMac(a).value, NormalMac(b).value;
    forall i | 0 <= i < 17 ensures x[i] == y[i] <==> SameLetter(a[i], b[i]) {
      assert i % 3 == 2 || (IsHex(a[i]) && IsHex(b[i]));
    }
    assert x == y <==> forall i :: 0 <= i < 17 ==> x[i] == y[i];
  }

  /** `firstOctet` stands for the address parser: the first octet of a valid IPv4 text. */
  predicate Usable(ip: string, firstOctet: string -> Option<nat>) {
    match firstOctet(ip)
    case None => false
    case Some(first) => first != 0 && first != 127 && first < 224
  }

  function Observe(host: Host, firstOctet: string -> Option<nat>): Option<Observation> {
    if host.NotAnObject? then None
    else
      var ip := Cleaned(host.ip);
      if !Usable(ip, firstOctet) then None
      else
        var name, hostname := Cleaned(host.name), Cleaned(host.hostname);
        Some(Observation(
          ip,
          if name != "" then Some(name) else if hostname != "" then Some(hostname) else None,
          NormalMac(Cleaned(host.mac)),
          if host.active.Flag? then Some(host.active.flag) else None))
  }

  function Observations(hosts: seq<Host>, firstOctet: string -> Option<nat>): seq<Observation> {
    if hosts == [] then []
    else
      var earlier := Observations(hosts[..|hosts| - 1], firstOctet);
      match Observe(hosts[|hosts| - 1], firstOctet)
      case None => earlier
      case Some(o) => earlier + [o]
  }

  // ----- what an inventory of some observations is -----

  function Addresses(obs: seq<Observation>): (ips: seq<string>)
    ensures |ips| == |obs| && forall i :: 0 <= i < |ips| ==> ips[i] == obs[i].ip
  {
    seq(|obs|, i requires 0 <= i < |obs| => obs[i].ip)
  }

  function FirstOf(ips: seq<string>, n: nat): seq<string> { if |ips| <= n then ips else ips[..n] }

  /** The first 512 distinct addresses. */
  function Admitted(obs: seq<Observation>): (ips: seq<string>)
    ensures NoRepeats(ips) && |ips| <= MAXIMUM_DEVICES
  {
    FirstOf(Distinct(Addresses(obs)), MAXIMUM_DEVICES)
  }

  /** Two observations of the address carry different MACs. */
  predicate Disagree(obs: seq<Observation>, ip: string, i: nat, j: nat) {
    && i < |obs| && j < |obs| && obs[i].ip == ip && obs[j].ip == ip
    && obs[i].mac.Some? && obs[j].mac.Some? && obs[i].mac != obs[j].mac
  }

  ghost predicate InConflict(obs: seq<Observation>, ip: string) { exists i: nat, j: nat :: Disagree(obs, ip, i, j) }

  predicate IsFirstSeen(obs: seq<Observation>, ip: string, i: nat) {
    i < |obs| && obs[i].ip == ip && forall k :: 0 <= k < i ==> obs[k].ip != ip
  }

  /** The MAC is that of the first observation that has one. */
  ghost predicate IsFirstMac(obs: seq<Observation>, ip: string, mac: Option<string>) {
    match mac
    case None => forall k :: 0 <= k < |obs| && obs[k].ip == ip ==> obs[k].mac.None?
    case Some(_) => exists i: nat :: IsMacAt(obs, ip, mac, i)
  }

  predicate IsMacAt(obs: seq<Observation>, ip: string, mac: Option<string>, i: nat) {
    && i < |obs| && obs[i].ip == ip && obs[i].mac == mac
    && forall k :: 0 <= k < i && obs[k].ip == ip ==> obs[k].mac.None?
  }

  /** Name and activity come from the first observation, the MAC from the first that has one, and the
      conflict flag says whether any two of them disagree. */
  ghost predicate Summarises(e: Entry, ip: string, obs: seq<Observation>) {
    && e.ipv4 == ip
    && (exists i: nat :: i < |obs| && IsFirstSeen(obs, ip, i) && e.name == obs[i].name && e.active == obs[i].active)
    && IsFirstMac(obs, ip, e.mac)
    && (e.conflict <==> InConflict(obs, ip))
  }

  // ----- one more observation -----

  function Updated(e: Entry, o: Observation): Entry {
    if o.mac.None? then e
    else if e.mac.None? then e.(mac := o.mac)
    else if o.mac != e.mac then e.(conflict := true)
    else e
  }

  lemma ConflictNext(obs: seq<Observation>, o: Observation, ip: string, mac: Option<string>)
    requires IsFirstMac(obs, ip, mac)
    ensures InConflict(obs + [o], ip) <==>
      InConflict(obs, ip) || (o.ip == ip && o.mac.Some? && mac.Some? && o.mac != mac)
  {
    var all := obs + [o];
    forall i, j | Disagree(obs, ip, i, j) ensures Disagree(all, ip, i, j) {}
    if o.ip == ip && o.mac.Some? && mac.Some? && o.mac != mac {
      var i: nat :| IsMacAt(obs, ip, mac, i);
      assert Disagree(all, ip, i, |obs|);
    }
    if InConflict(all, ip) {
      var i: nat, j: nat :| Disagree(all, ip, i, j);
      if i < |obs| && j < |obs| {
        assert Disagree(obs, ip, i, j);
      } else {
        var other := if i < |obs| then i else j;
        assert obs[other].mac.Some?;
        var m: nat :| IsMacAt(obs, ip, mac, m);
        assert o.mac == mac ==> Disagree(obs, ip, other, m);
      }
    }
  }

  lemma FirstMacNext(obs: seq<Observation>, o: Observation, ip: string, mac: Option<string>)
    requires IsFirstMac(obs, ip, mac)
    ensures IsFirstMac(obs + [o], ip, if mac.None? && o.ip == ip then o.mac else mac)
  {
    var all := obs + [o];
    assert forall k :: 0 <= k < |obs| ==> all[k] == obs[k];
    if mac.None? && o.ip == ip && o.mac.Some? {
      assert IsMacAt(all, ip, o.mac, |obs|);
    } else if mac.Some? {
      var i: nat :| IsMacAt(obs, ip, mac, i);
      assert IsMacAt(all, ip, mac, i);
    }
  }

  lemma FirstNext(obs: seq<Observation>, o: Observation, ip: string, i: nat)
    requires IsFirstSeen(obs, ip, i)
    ensures IsFirstSeen(obs + [o], ip, i) && (obs + [o])[i] == obs[i]
  {
  }

  lemma SummaryNext(e: Entry, ip: string, obs: seq<Observation>, o: Observation)
    requires Summarises(e, ip, obs)
    ensures Summarises(if o.ip == ip then Updated(e, o) else e, ip, obs + [o])
  {
    hide InConflict, IsFirstMac, IsFirstSeen;
    var i: nat :| i < |obs| && IsFirstSeen(obs, ip, i) && e.name == obs[i].name && e.active == obs[i].active;
    FirstNext(obs, o, ip, i);
    FirstMacNext(obs, o, ip, e.mac);
    ConflictNext(obs, o, ip, e.mac);
  }

  lemma SummaryStarts(obs: seq<Observation>, o: Observation)
    requires o.ip !in Addresses(obs)
    ensures Summarises(Entry(o.ip, o.name, o.mac, o.active, false), o.ip, obs + [o])
  {
    var all := obs + [o];
    forall k | 0 <= k < |obs| ensures obs[k].ip != o.ip { assert Addresses(obs)[k] == obs[k].ip; }
    assert IsFirstSeen(all, o.ip, |obs|);
    assert IsFirstMac(obs, o.ip, None);
    FirstMacNext(obs, o, o.ip, None);
    assert !InConflict(obs, o.ip);
    ConflictNext(obs, o, o.ip, None);
  }

  // ----- the fold -----

  /** There are more distinct addresses than entries. */
  ghost predicate Overflows(obs: seq<Observation>) { |Distinct(Addresses(obs))| > MAXIMUM_DEVICES }

  /** The map after some observations: an entry for each admitted address, and nothing else. */
  ghost predicate Tracks(byAddress: map<string, Entry>, obs: seq<Observation>) {
    && (forall ip :: ip in byAddress <==> ip in Admitted(obs))
    && forall ip :: ip in byAddress ==> Summarises(byAddress[ip], ip, obs)
  }

  lemma AddressesNext(obs: seq<Observation>, o: Observation)
    ensures var ips := Distinct(Addresses(obs));
      Distinct(Addresses(obs + [o])) == if o.ip in ips then ips else ips + [o.ip]
  {
    assert Addresses(obs + [o]) == Addresses(obs) + [o.ip];
    DistinctAppend(Addresses(obs), o.ip);
  }

  lemma TrackedCount(byAddress: map<string, Entry>, obs: seq<Observation>)
    requires Tracks(byAddress, obs)
    ensures |byAddress| == |Admitted(obs)|
  {
    hide Admitted, Summarises;
    assert |byAddress| == |byAddress.Keys|;
    CountOfDistinct(Admitted(obs), byAddress.Keys);
  }

  /** One usable host; `full` says that its address had to be left out. */
  method Fold(byAddress: map<string, Entry>, o: Observation, ghost obs: seq<Observation>)
    returns (next: map<string, Entry>, full: bool)
    requires Tracks(byAddress, obs)
    ensures Tracks(next, obs + [o])
    ensures full || Overflows(obs) <==> Overflows(obs + [o])
  {
    hide Tracks, Overflows;
    full := false;
    if o.ip in byAddress {
      KnownAddress(byAddress, o, obs);
      next := byAddress[o.ip := Updated(byAddress[o.ip], o)];
    } else if |byAddress| >= MAXIMUM_DEVICES {
      NoRoom(byAddress, o, obs);
      full := true;
      next := byAddress;
    } else {
      NewAddress(byAddress, o, obs);
      next := byAddress[o.ip := Entry(o.ip, o.name, o.mac, o.active, false)];
    }
  }

  lemma KnownAddress(byAddress: map<string, Entry>, o: Observation, obs: seq<Observation>)
    requires Tracks(byAddress, obs) && o.ip in byAddress
    ensures Tracks(byAddress[o.ip := Updated(byAddress[o.ip], o)], obs + [o])
    ensures Overflows(obs) <==> Overflows(obs + [o])
  {
    hide Summarises, Distinct, Addresses, Updated;
    AddressesNext(obs, o);
    assert Admitted(obs + [o]) == Admitted(obs);
    forall ip | ip in byAddress { SummaryNext(byAddress[ip], ip, obs, o); }
  }

  lemma NoRoom(byAddress: map<string, Entry>, o: Observation, obs: seq<Observation>)
    requires Tracks(byAddress, obs) && o.ip !in byAddress && |byAddress| >= MAXIMUM_DEVICES
    ensures Tracks(byAddress, obs + [o]) && Overflows(obs + [o])
  {
    hide Summarises, Distinct, Addresses;
    TrackedCount(byAddress, obs);
    AddressesNext(obs, o);
    assert Admitted(obs + [o]) == Admitted(obs);
    forall ip | ip in byAddress { SummaryNext(byAddress[ip], ip, obs, o); }
  }

  lemma NewAddress(byAddress: map<string, Entry>, o: Observation, obs: seq<Observation>)
    requires Tracks(byAddress, obs) && o.ip !in byAddress && |byAddress| < MAXIMUM_DEVICES
    ensures Tracks(byAddress[o.ip := Entry(o.ip, o.name, o.mac, o.active, false)], obs + [o])
    ensures !Overflows(obs) && !Overflows(obs + [o])
  {
    hide Summarises, Distinct, Addresses;
    TrackedCount(byAddress, obs);
    AddressesNext(obs, o);
    assert o.ip !in Addresses(obs);
    SummaryStarts(obs, o);
    forall ip | ip in byAddress { SummaryNext(byAddress[ip], ip, obs, o); }
  }

  /** The whole inventory, in ascending order of address. */
  method Inventory(hosts: seq<Host>, firstOctet: string -> Option<nat>) returns (devices: seq<Entry>, truncated: bool)
    ensures var obs := Observations(FirstHosts(hosts), firstOctet);
      && Lists(devices, obs)
      && (truncated <==> |hosts| > MAXIMUM_HOSTS || Overflows(obs))
  {
    hide Tracks, Observations, Observe, Overflows, Lists;
    var byAddress: map<string, Entry> := map[];
    truncated := false;
    assert Tracks(byAddress, Observations(hosts[..0], firstOctet)) && !Overflows(Observations(hosts[..0], firstOctet)) by {
      NothingObserved(hosts, firstOctet);
    }
    var i := 0;
    while i < |hosts|
      invariant 0 <= i <= |hosts| && i <= MAXIMUM_HOSTS
      invariant Tracks(byAddress, Observations(hosts[..i], firstOctet))
      invariant truncated <==> Overflows(Observations(hosts[..i], firstOctet))
      decreases |hosts| - i
    {
      if i + 1 > MAXIMUM_HOSTS {
        truncated := true;
        break;
      }
      ObservationsNext(hosts, i, firstOctet);
      var seen := Observe(hosts[i], firstOctet);
      if seen.Some? {
        var full;
        byAddress, full := Fold(byAddress, seen.value, Observations(hosts[..i], firstOctet));
        if full { truncated := true; }
      }
      i := i + 1;
    }
    assert FirstHosts(hosts) == hosts[..i];
    devices := InOrder(byAddress, Observations(hosts[..i], firstOctet));
  }

  function FirstHosts(hosts: seq<Host>): seq<Host> { if |hosts| <= MAXIMUM_HOSTS then hosts else hosts[..MAXIMUM_HOSTS] }

  /** Exactly the admitted addresses, each once and in order, each with its summary. */
  ghost predicate Lists(devices: seq<Entry>, obs: seq<Observation>) {
    && |devices| == |Admitted(obs)|
    && (forall i, j :: 0 <= i < j < |devices| ==> Less(devices[i].ipv4, devices[j].ipv4))
    && (forall i :: 0 <= i < |devices| ==> devices[i].ipv4 in Admitted(obs) && Summarises(devices[i], devices[i].ipv4, obs))
    && (forall ip :: ip in Admitted(obs) ==> exists i :: 0 <= i < |devices| && devices[i].ipv4 == ip)
  }

  lemma NothingObserved(hosts: seq<Host>, firstOctet: string -> Option<nat>)
    ensures Observations(hosts[..0], firstOctet) == []
    ensures Tracks(map[], Observations(hosts[..0], firstOctet)) && !Overflows(Observations(hosts[..0], firstOctet))
  {
    assert Addresses([]) == [];
  }

  lemma ObservationsNext(hosts: seq<Host>, i: nat, firstOctet: string -> Option<nat>)
    requires i < |hosts|
    ensures Observations(hosts[..i + 1], firstOctet) ==
      match Observe(hosts[i], firstOctet)
      case None => Observations(hosts[..i], firstOctet)
      case Some(o) => Observations(hosts[..i], firstOctet) + [o]
  {
    assert hosts[..i + 1][..i] == hosts[..i];
  }

  /** Lists the entries by ascending address, as the ordered map does. */
  method InOrder(byAddress: map<string, Entry>, ghost obs: seq<Observation>) returns (devices: seq<Entry>)
    requires Tracks(byAddress, obs)
    ensures Lists(devices, obs)
  {
    hide Less, Summarises, Admitted;
    var keys: seq<string> := [];
    var left := byAddress.Keys;
    while left != {}
      invariant left <= byAddress.Keys
      invariant OrderedKeys.Ascending(keys) && forall k :: k in keys <==> k in byAddress.Keys - left
      decreases |left|
    {
      var k :| k in left;
      keys := OrderedKeys.Insert(keys, k);
      left := left - {k};
    }
    devices := seq(|keys|, i requires 0 <= i < |keys| => if keys[i] in byAddress then byAddress[keys[i]] else Entry("", None, None, None, false));
    AscendingHasNoRepeats(keys);
    CountOfDistinct(keys, byAddress.Keys);
    CountOfDistinct(Admitted(obs), byAddress.Keys);
    assert forall i :: 0 <= i < |devices| ==> keys[i] in keys && devices[i] == byAddress[keys[i]] && devices[i].ipv4 == keys[i] by {
      KeysAreAddresses(byAddress, obs);
    }
    assert forall ip :: ip in Admitted(obs) ==> ip in keys;
  }

  lemma KeysAreAddresses(byAddress: map<string, Entry>, obs: seq<Observation>)
    requires Tracks(byAddress, obs)
    ensures forall ip :: ip in byAddress ==> byAddress[ip].ipv4 == ip
  {
  }

  lemma AscendingHasNoRepeats(keys: seq<string>)
    requires OrderedKeys.Ascending(keys)
    ensures NoRepeats(keys)
  {
    forall i, j | 0 <= i < j < |keys| ensures keys[i] != keys[j] { LessIsTotal(keys[i], keys[j]); }
  }
}
