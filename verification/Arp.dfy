/** The table of hardware addresses, and which of its answers can be trusted. */
module Arp {
  import opened Machine

  const MAXAGE: int := 120

  /** An IP address as the target keeps it, in two 16-bit halves. */
  datatype Addr = Addr(hi: u16, lo: u16)

  const NO_ADDR: Addr := Addr(0, 0)

  type Mac = seq<byte>

  datatype Entry = Entry(addr: Addr, mac: Mac, time: byte) {
    /** The test for an entry in use wants both halves non-zero. */
    predicate InUse() {
      addr.hi != 0 && addr.lo != 0
    }

    predicate Free() {
      addr == NO_ADDR
    }

    /** Below zero once the 8-bit clock has wrapped around. */
    function Age(now: byte): int {
      now as int - time as int
    }
  }

  /** The entry thrown away for a new one: the first of the greatest age above zero, or else the first of all. */
  ghost predicate Oldest(t: seq<Entry>, now: byte, c: nat) {
    && c < |t| && (c == 0 || t[c].Age(now) > 0)
    && (forall j :: 0 <= j < |t| ==> t[j].Age(now) <= 0 || t[j].Age(now) <= t[c].Age(now))
    && (forall j :: 0 <= j < c ==> t[j].Age(now) < t[c].Age(now))
  }

  /** Where the mapping for `p` goes: its entry, or a free one, or the oldest. */
  ghost predicate Target(t: seq<Entry>, now: byte, p: Addr, i: nat) {
    && i < |t|
    && if exists j :: 0 <= j < |t| && t[j].InUse() && t[j].addr == p then
         t[i].InUse() && t[i].addr == p && forall j :: 0 <= j < i ==> !(t[j].InUse() && t[j].addr == p)
       else if exists j :: 0 <= j < |t| && t[j].Free() then
         t[i].Free() && forall j :: 0 <= j < i ==> !t[j].Free()
       else Oldest(t, now, i)
  }

  function Expired(e: Entry, now: byte): Entry {
    if e.addr != NO_ADDR && e.Age(now) >= MAXAGE then e.(addr := NO_ADDR) else e
  }

  class ArpTable {
    const table: array<Entry>
    var arptime: byte

    constructor (size: nat)
      ensures fresh(table) && table.Length == size && arptime == 0
      ensures forall i :: 0 <= i < size ==> table[i].Free()
    {
      table := new Entry[size](_ => Entry(NO_ADDR, [], 0));
      arptime := 0;
    }

    method Timer()
      modifies this, table
      ensures arptime == (old(arptime) as int + 1) % 0x100
      ensures forall k :: 0 <= k < table.Length ==> table[k] == Expired(old(table[k]), arptime)
    {
      arptime := (arptime as int + 1) % 0x100;
      var i := 0;
      while i < table.Length
        invariant i <= table.Length && arptime == (old(arptime) as int + 1) % 0x100
        invariant forall k :: 0 <= k < i ==> table[k] == Expired(old(table[k]), arptime)
        invariant forall k :: i <= k < table.Length ==> table[k] == old(table[k])
      {
        if table[i].addr != NO_ADDR && table[i].Age(arptime) >= MAXAGE {
          table[i] := table[i].(addr := NO_ADDR);
        }
        i := i + 1;
      }
    }

    method FindInUse(p: Addr) returns (i: nat)
      ensures i <= table.Length && (i < table.Length ==> table[i].InUse() && table[i].addr == p)
      ensures forall j :: 0 <= j < i ==> !(table[j].InUse() && table[j].addr == p)
    {
      i := 0;
      while i < table.Length && !(table[i].InUse() && table[i].addr == p)
        invariant i <= table.Length
        invariant forall j :: 0 <= j < i ==> !(table[j].InUse() && table[j].addr == p)
      {
        i := i + 1;
      }
    }

    method FindFree() returns (i: nat)
      ensures i <= table.Length && (i < table.Length ==> table[i].Free())
      ensures forall j :: 0 <= j < i ==> !table[j].Free()
    {
      i := 0;
      while i < table.Length && !table[i].Free()
        invariant i <= table.Length
        invariant forall j :: 0 <= j < i ==> !table[j].Free()
      {
        i := i + 1;
      }
    }

    method FindOldest() returns (c: nat)
      requires table.Length > 0
      ensures Oldest(table[..], arptime, c)
    {
      var tmpage, i := 0, 0;
      c := 0;
      while i < table.Length
        invariant i <= table.Length && c < table.Length && (i == 0 ==> c == 0 && tmpage == 0)
        invariant if tmpage == 0 then c == 0 else c < i && tmpage == table[c].Age(arptime) > 0
        invariant forall j :: 0 <= j < i ==> table[j].Age(arptime) <= tmpage
        invariant forall j :: 0 <= j < c ==> table[j].Age(arptime) < tmpage
      {
        if table[i].Age(arptime) > tmpage {
          tmpage := table[i].Age(arptime);
          c := i;
        }
        i := i + 1;
      }
    }

    /** Learns a mapping; `at` is the entry it went to. */
    method Update(p: Addr, mac: Mac) returns (ghost at: nat)
      requires table.Length > 0
      modifies table
      ensures Target(old(table[..]), arptime, p, at)
      ensures table[..] == old(table[..])[at := Entry(p, mac, arptime)]
    {
      ghost var t := table[..];
      var i := FindInUse(p);
      if i == table.Length {
        i := FindFree();
        if i == table.Length {
          i := FindOldest();
        }
      }
      at := i;
      assert Target(t, arptime, p, at) by {
        if t[i].InUse() && t[i].addr == p { } else if t[i].Free() { } else { }
      }
      table[i] := Entry(p, mac, arptime);
      assert table[..] == t[i := Entry(p, mac, arptime)];
    }

    /** The hardware address to send to, if it is known. */
    method Lookup(p: Addr) returns (mac: Option<Mac>)
      ensures mac == Found(table[..], p)
    {
      var i := 0;
      while i < table.Length && table[i].addr != p
        invariant i <= table.Length && Found(table[..], p) == Found(table[i..], p)
      {
        i := i + 1;
      }
      mac := if i == table.Length then None else Some(table[i].mac);
    }
  }

  /** The answer of a lookup: the first entry with the address, in use or not. */
  function Found(t: seq<Entry>, p: Addr): Option<Mac> {
    if t == [] then None else if t[0].addr == p then Some(t[0].mac) else Found(t[1..], p)
  }

  lemma {:induction false} FoundAt(t: seq<Entry>, p: Addr)
    ensures Found(t, p).None? ==> forall i :: 0 <= i < |t| ==> t[i].addr != p
    ensures Found(t, p).Some? ==> exists i :: 0 <= i < |t| && t[i].addr == p && t[i].mac == Found(t, p).value
  {
    if t != [] && t[0].addr != p {
      FoundAt(t[1..], p);
      if Found(t, p).Some? {
        var i :| 0 <= i < |t[1..]| && t[1..][i].addr == p && t[1..][i].mac == Found(t, p).value;
        assert t[i + 1].addr == p && t[i + 1].mac == Found(t, p).value;
      } else {
        assert forall i :: 1 <= i < |t| ==> t[i] == t[1..][i - 1];
      }
    }
  }

  /** The ticks since the entry was learned, if those are less than a turn of the clock. */
  function TrueAge(e: Entry, now: byte): nat {
    (now as int - e.time as int) % 0x100
  }

  /**
   A mapping is thrown away for another only if every entry is in use. If some age is
   above zero, it is then the one not learned for longest exactly if the clock has not
   wrapped around since any of them was.
   */
  lemma LeastRecentExactly(t: seq<Entry>, now: byte, p: Addr, i: nat)
    requires Target(t, now, p, i) && !(t[i].InUse() && t[i].addr == p)
    ensures t[i].Free() || forall j :: 0 <= j < |t| ==> !t[j].Free()
    ensures !t[i].Free() && (exists j :: 0 <= j < |t| && t[j].Age(now) > 0) ==>
      ((forall j :: 0 <= j < |t| ==> TrueAge(t[j], now) <= TrueAge(t[i], now)) <==>
         (forall j :: 0 <= j < |t| ==> t[j].time <= now))
  {
  }

  // ----- how long an entry stays

  /** The clock `n` ticks after `now`. */
  function Clock(now: byte, n: nat): byte {
    (now as int + n) % 0x100
  }

  /** An entry after `n` ticks in which nothing else happens to it. */
  function Aged(e: Entry, now: byte, n: nat): Entry {
    if n == 0 then e else Expired(Aged(e, now, n - 1), Clock(now, n))
  }

  /**
   An entry learned now is forgotten after 120 ticks exactly, and its address kept until then, if the
   clock does not wrap around before; if it does, the entry's age stays below 120 and it is never forgotten.
   */
  lemma {:induction false} ForgottenExactly(e: Entry, now: byte, n: nat)
    requires e.time == now && e.addr != NO_ADDR
    ensures Aged(e, now, n) == if now <= 135 && n >= 120 then e.(addr := NO_ADDR) else e
  {
    if n > 0 {
      ForgottenExactly(e, now, n - 1);
      if n < 120 {
        assert Clock(now, n) as int == if now as int + n < 0x100 then now as int + n else now as int + n - 0x100;
      }
    }
  }

  // ----- runs of the table

  datatype Table = Table(entries: seq<Entry>, now: byte)

  datatype Event = Learn(p: Addr, mac: Mac) | Tick

  ghost predicate Next(s: Table, ev: Event, s': Table) {
    match ev
    case Learn(p, mac) =>
      && s'.now == s.now
      && exists i: nat :: Target(s.entries, s.now, p, i) && s'.entries == s.entries[i := Entry(p, mac, s.now)]
    case Tick =>
      && s'.now == (s.now as int + 1) % 0x100 && |s'.entries| == |s.entries|
      && forall k :: 0 <= k < |s.entries| ==> s'.entries[k] == Expired(s.entries[k], s'.now)
  }

  ghost predicate Run(states: seq<Table>, events: seq<Event>) {
    && |states| == |events| + 1
    && states[0].entries != [] && states[0].now == 0
    && (forall i :: 0 <= i < |states[0].entries| ==> states[0].entries[i].Free())
    && forall i :: 0 <= i < |events| ==> Happens(states, events, i)
  }

  ghost predicate Happens(states: seq<Table>, events: seq<Event>, i: nat)
    requires i < |events| && |states| == |events| + 1
  {
    Next(states[i], events[i], states[i + 1])
  }

  /** While nothing is learned, every entry of a run ages by the ticks. */
  lemma {:induction false} TicksAge(states: seq<Table>, events: seq<Event>, i: nat, j: nat, k: nat)
    requires Run(states, events) && i <= j <= |events| && k < |states[i].entries|
    requires forall n :: i <= n < j ==> events[n].Tick?
    ensures states[j].now == Clock(states[i].now, j - i) && |states[j].entries| == |states[i].entries|
    ensures states[j].entries[k] == Aged(states[i].entries[k], states[i].now, j - i)
    decreases j
  {
    if i < j {
      TicksAge(states, events, i, j - 1, k);
      assert Happens(states, events, j - 1);
    }
  }

  /**
   A mapping just learned is looked up for 119 ticks, or for ever if the clock stood
   at 136 or later; else the address is unknown again from the 120th tick on.
   */
  lemma LearnedStays(states: seq<Table>, events: seq<Event>, i: nat, j: nat, p: Addr)
    requires Run(states, events) && i < j <= |events| && events[i].Learn? && events[i].p == p
    requires Safe(|states[0].entries|, p) && forall n :: i < n < j ==> events[n].Tick?
    ensures Found(states[j].entries, p) ==
      if states[i].now <= 135 && j - i - 1 >= 120 then None else Some(events[i].mac)
  {
    assert Happens(states, events, i);
    var s, s' := states[i], states[i + 1];
    var at: nat :| Target(s.entries, s.now, p, at) && s'.entries == s.entries[at := Entry(p, events[i].mac, s.now)];
    SoundAlways(states, events, i + 1, p);
    var t, t', n := s'.entries, states[j].entries, j - i - 1;
    TicksAge(states, events, i + 1, j, at);
    ForgottenExactly(t[at], s'.now, n);
    forall k: nat | k < |t| && k != at ensures t'[k].addr != p {
      TicksAge(states, events, i + 1, j, k);
      AddressAged(t[k], s'.now, n);
      assert t[at].addr == p && (k < at || at < k);
    }
    FoundAt(t', p);
  }

  /** Age changes an address only to none. */
  lemma {:induction false} AddressAged(e: Entry, now: byte, n: nat)
    ensures Aged(e, now, n).addr == e.addr || Aged(e, now, n).addr == NO_ADDR
  {
    if n > 0 { AddressAged(e, now, n - 1); }
  }

  /** The mapping most recently learned for `p`. */
  function Latest(events: seq<Event>, p: Addr): Option<Mac> {
    if events == [] then None
    else
      var last := events[|events| - 1];
      if last.Learn? && last.p == p then Some(last.mac) else Latest(events[..|events| - 1], p)
  }

  /** At most one entry for `p`, and a lookup that hits gives `latest`. */
  ghost predicate Sound(t: seq<Entry>, p: Addr, latest: Option<Mac>) {
    && (forall i, j :: 0 <= i < j < |t| && t[i].addr == p ==> t[j].addr != p)
    && (forall i :: 0 <= i < |t| && t[i].addr == p ==> Some(t[i].mac) == latest)
  }

  lemma SoundLookup(t: seq<Entry>, p: Addr, latest: Option<Mac>)
    requires Sound(t, p, latest)
    ensures Found(t, p).Some? ==> Found(t, p) == latest
  {
    FoundAt(t, p);
  }

  /** An address with two non-zero halves, or any but zero in a table of a single entry. */
  predicate Safe(size: nat, p: Addr) {
    (p.hi != 0 && p.lo != 0) || (size == 1 && p != NO_ADDR)
  }

  lemma LearnKeeps(t: seq<Entry>, now: byte, q: Addr, mac: Mac, i: nat, p: Addr, latest: Option<Mac>)
    requires Safe(|t|, p) && Sound(t, p, latest) && Target(t, now, q, i)
    ensures Sound(t[i := Entry(q, mac, now)], p, if q == p then Some(mac) else latest)
  {
    if q == p && |t| > 1 {
      assert forall j :: 0 <= j < |t| && t[j].addr == p ==> t[j].InUse();
    }
  }

  lemma {:induction false} SoundAlways(states: seq<Table>, events: seq<Event>, n: nat, p: Addr)
    requires Run(states, events) && n <= |events| && Safe(|states[0].entries|, p)
    ensures |states[n].entries| == |states[0].entries| && Sound(states[n].entries, p, Latest(events[..n], p))
  {
    if n > 0 {
      SoundAlways(states, events, n - 1, p);
      assert Happens(states, events, n - 1);
      var s, ev := states[n - 1], events[n - 1];
      assert events[..n][..n - 1] == events[..n - 1];
      if ev.Learn? {
        var t' := states[n].entries;
        var i: nat :| Target(s.entries, s.now, ev.p, i) && t' == s.entries[i := Entry(ev.p, ev.mac, s.now)];
        LearnKeeps(s.entries, s.now, ev.p, ev.mac, i, p, Latest(events[..n - 1], p));
      }
    }
  }

  /** Whatever is learned and however time goes by, a lookup of `p` that hits gives what was learned last. */
  ghost predicate Truthful(size: nat, p: Addr) {
    forall states: seq<Table>, events: seq<Event>, n: nat ::
      Run(states, events) && n <= |events| && |states[0].entries| == size ==> TrueAt(states[n].entries, events[..n], p)
  }

  ghost predicate TrueAt(t: seq<Entry>, events: seq<Event>, p: Addr) {
    Found(t, p).Some? ==> Found(t, p) == Latest(events, p)
  }

  /** Whatever is learned and however time goes by, there is one entry for `p` at most, with what was learned last. */
  ghost predicate Reliable(size: nat, p: Addr) {
    forall states: seq<Table>, events: seq<Event>, n: nat ::
      Run(states, events) && n <= |events| && |states[0].entries| == size ==>
        Sound(states[n].entries, p, Latest(events[..n], p))
  }

  /** The in-use test makes it so exactly for the safe addresses. */
  lemma ReliableExactly(size: nat, p: Addr)
    requires size > 0
    ensures Reliable(size, p) <==> Safe(size, p)
    ensures Truthful(size, p) <==> Safe(size, p)
  {
    if Safe(size, p) {
      forall states: seq<Table>, events: seq<Event>, n: nat
        | Run(states, events) && n <= |events| && |states[0].entries| == size
        ensures Sound(states[n].entries, p, Latest(events[..n], p))
      {
        SoundAlways(states, events, n, p);
      }
      forall states: seq<Table>, events: seq<Event>, n: nat
        | Run(states, events) && n <= |events| && |states[0].entries| == size
        ensures TrueAt(states[n].entries, events[..n], p)
      {
        SoundAlways(states, events, n, p);
        SoundLookup(states[n].entries, p, Latest(events[..n], p));
      }
    } else {
      var states, events;
      if p == NO_ADDR {
        states, events := UnlearnedHit(size);
      } else {
        states, events := LearnedTwice(size, p);
      }
      assert events[..|events|] == events;
      assert !TrueAt(states[|events|].entries, events[..|events|], p);
      assert !Sound(states[|events|].entries, p, Latest(events[..|events|], p)) by {
        if Sound(states[|events|].entries, p, Latest(events[..|events|], p)) {
          SoundLookup(states[|events|].entries, p, Latest(events[..|events|], p));
        }
      }
    }
  }

  function Empty(size: nat): (t: seq<Entry>)
    ensures |t| == size
  {
    seq(size, _ => Entry(NO_ADDR, [], 0))
  }

  /** In a table in which nothing was learned, a lookup of address zero hits. */
  lemma UnlearnedHit(size: nat) returns (states: seq<Table>, events: seq<Event>)
    requires size > 0
    ensures Run(states, events) && |states[0].entries| == size
    ensures Found(states[|events|].entries, NO_ADDR).Some? && Latest(events, NO_ADDR) == None
  {
    states, events := [Table(Empty(size), 0)], [];
    assert states[0].entries[0].addr == NO_ADDR;
  }

  /** An address with one zero half is learned twice into two entries, and a lookup gives what was learned first. */
  lemma LearnedTwice(size: nat, p: Addr) returns (states: seq<Table>, events: seq<Event>)
    requires size > 1 && p != NO_ADDR && (p.hi == 0 || p.lo == 0)
    ensures Run(states, events) && |states[0].entries| == size
    ensures Found(states[|events|].entries, p) == Some([1]) && Latest(events, p) == Some([2])
  {
    var t0 := Empty(size);
    var t1 := t0[0 := Entry(p, [1], 0)];
    var t2 := t1[1 := Entry(p, [2], 0)];
    states := [Table(t0, 0), Table(t1, 0), Table(t2, 0)];
    events := [Learn(p, [1]), Learn(p, [2])];
    assert t0[0].Free() && Target(t0, 0, p, 0);
    assert t1[1].Free() && Target(t1, 0, p, 1);
    assert Happens(states, events, 0) && Happens(states, events, 1);
    assert t2[0].addr == p;
  }
}
