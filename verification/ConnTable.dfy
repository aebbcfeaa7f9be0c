/** The table of connections: opening a slot, actively or for a SYN, and finding the connection of a segment. */
module ConnTable {
  import opened Machine
  import opened TcpEngine
  import opened TcpTimers

  const FIRST_PORT: nat := 4096
  const PORT_LIMIT: nat := 32000
  const MAX_CONNS: nat := 255

  /** A connection with its two ports and its peer's address. */
  datatype Slot = Slot(conn: Conn, lport: u16, rport: u16, raddr: u32) {
    predicate Vacant() {
      conn.IsClosed()
    }

    predicate Lingers() {
      conn.state == TimeWait && !conn.stopped
    }

    predicate Serves(local: u16, remote: u16, from: u32) {
      !Vacant() && lport == local && rport == remote && raddr == from
    }
  }

  /** No two slots in use have both ports and the peer's address in common. */
  ghost predicate Distinct(t: seq<Slot>) {
    forall i, j :: 0 <= i < j < |t| && !t[i].Vacant() ==> !t[j].Serves(t[i].lport, t[i].rport, t[i].raddr)
  }

  lemma AtMostOne(t: seq<Slot>, i: nat, j: nat, local: u16, remote: u16, from: u32)
    requires Distinct(t) && i < |t| && j < |t|
    requires t[i].Serves(local, remote, from) && t[j].Serves(local, remote, from)
    ensures i == j
  {
  }

  lemma ServesMeans(s: Slot, local: u16, remote: u16, from: u32)
    ensures s.Serves(local, remote, from) <==>
      !s.conn.IsClosed() && s.lport == local && s.rport == remote && s.raddr == from
  {
  }

  /** The slot to open: the first vacant one, or else the one longest in TIME_WAIT. */
  ghost predicate Chosen(t: seq<Slot>, found: Option<nat>) {
    match found
    case None => forall i :: 0 <= i < |t| ==> !t[i].Vacant() && !t[i].Lingers()
    case Some(k) =>
      && k < |t|
      && if t[k].Vacant() then forall i :: 0 <= i < k ==> !t[i].Vacant()
         else
           && t[k].Lingers()
           && forall i :: 0 <= i < |t| ==>
                !t[i].Vacant() && (t[i].Lingers() ==> t[i].conn.timer <= t[k].conn.timer)
                && (t[i].Lingers() && i < k ==> t[i].conn.timer < t[k].conn.timer)
  }

  /**
   No connection is thrown out of its slot but one in TIME_WAIT, and of these the one
   that would have closed soonest.
   */
  lemma ChosenSpares(t: seq<Slot>, k: nat)
    requires Chosen(t, Some(k))
    requires forall i :: 0 <= i < |t| && t[i].conn.state == TimeWait ==> t[i].conn.timer < 120
    ensures t[k].conn.IsClosed() || (t[k].conn.state == TimeWait && forall i :: 0 <= i < |t| ==> !t[i].conn.IsClosed())
    ensures !t[k].conn.IsClosed() ==>
      forall i :: 0 <= i < |t| && t[i].conn.state == TimeWait && !t[i].conn.stopped ==>
        Lifetime(t[k].conn) <= Lifetime(t[i].conn)
  {
  }

  /** None is found exactly if every connection is in use and not in TIME_WAIT. */
  lemma NoneChosen(t: seq<Slot>)
    ensures Chosen(t, None) <==> forall i :: 0 <= i < |t| ==>
      !t[i].conn.IsClosed() && !(t[i].conn.state == TimeWait && !t[i].conn.stopped)
  {
  }

  /** A new occupant whose ports and peer no slot in use has leaves the table distinct. */
  lemma OpenKeeps(t: seq<Slot>, k: nat, s: Slot)
    requires Distinct(t) && k < |t|
    requires forall i :: 0 <= i < |t| ==> !t[i].Serves(s.lport, s.rport, s.raddr)
    ensures Distinct(t[k := s])
  {
  }

  /** So does any step of a connection in use, whatever becomes of it. */
  lemma StepKeepsDistinct(t: seq<Slot>, k: nat, c: Conn)
    requires Distinct(t) && k < |t| && !t[k].Vacant()
    ensures Distinct(t[k := t[k].(conn := c)])
  {
  }

  // ----- local ports

  function NextPort(port: nat): nat {
    if port + 1 >= PORT_LIMIT then FIRST_PORT else port + 1
  }

  /** The `n`th port tried after `port`. */
  function Candidate(port: nat, n: nat): nat {
    if n == 0 then port else NextPort(Candidate(port, n - 1))
  }

  lemma {:induction false} CandidateValue(port: nat, n: nat)
    requires port < PORT_LIMIT && n <= PORT_LIMIT - FIRST_PORT
    ensures Candidate(port, n) == if port + n < PORT_LIMIT then port + n else port + n - (PORT_LIMIT - FIRST_PORT)
  {
    if n > 0 { CandidateValue(port, n - 1); }
  }

  /** Within one turn, also across the wrap, no port is tried twice. */
  lemma CandidatesDiffer(port: nat, m: nat, n: nat)
    requires port < PORT_LIMIT && 1 <= m < n <= PORT_LIMIT - FIRST_PORT
    ensures Candidate(port, m) != Candidate(port, n)
  {
    CandidateValue(port, m);
    CandidateValue(port, n);
  }

  ghost predicate PortUsed(t: seq<Slot>, port: nat) {
    exists i :: 0 <= i < |t| && !t[i].Vacant() && t[i].lport == port
  }

  /** Slots that have turned down one candidate each. */
  ghost predicate Refusing(t: seq<Slot>, port: nat, n: nat, hit: set<nat>) {
    && |hit| == n
    && forall i :: i in hit ==> i < |t| && exists m :: 1 <= m <= n && t[i].lport == Candidate(port, m)
  }

  lemma NoneTried(t: seq<Slot>, port: nat)
    ensures Refusing(t, port, 0, {}) && Candidate(port, 0) == port
  {
  }

  lemma NextCandidate(port: nat, n: nat)
    ensures Candidate(port, n + 1) == NextPort(Candidate(port, n))
  {
  }

  lemma RefusedOnce(t: seq<Slot>, port: nat, n: nat, hit: set<nat>, i: nat)
    requires Refusing(t, port, n, hit) && i < |t| && t[i].lport == Candidate(port, n + 1)
    requires port < PORT_LIMIT && n < PORT_LIMIT - FIRST_PORT
    ensures Refusing(t, port, n + 1, hit + {i})
  {
    if i in hit {
      var m :| 1 <= m <= n && t[i].lport == Candidate(port, m);
      CandidatesDiffer(port, m, n + 1);
    }
    forall j | j in hit + {i} ensures j < |t| && exists m :: 1 <= m <= n + 1 && t[j].lport == Candidate(port, m) {
      if j in hit {
        var m :| 1 <= m <= n && t[j].lport == Candidate(port, m);
      } else {
        assert t[j].lport == Candidate(port, n + 1);
      }
    }
  }

  /** A slot refuses one port only, so there are no more refusals than slots. */
  lemma FewRefusals(t: seq<Slot>, port: nat, n: nat, hit: set<nat>)
    requires Refusing(t, port, n, hit)
    ensures n <= |t|
  {
    SubsetOfIndices(hit, |t|);
  }

  lemma {:induction false} SubsetOfIndices(s: set<nat>, n: nat)
    requires forall i :: i in s ==> i < n
    ensures |s| <= n
  {
    if n > 0 {
      SubsetOfIndices(s - {n - 1}, n - 1);
      if n - 1 in s { assert |s| == |s - {n - 1}| + 1; } else { assert s == s - {n - 1}; }
    }
  }

  class ConnTable {
    const conns: array<Slot>
    var lastport: u16
    var listenports: seq<u16>

    ghost predicate Valid()
      reads this, conns
    {
      conns.Length <= MAX_CONNS && lastport < PORT_LIMIT && Distinct(conns[..])
    }

    constructor (size: nat)
      requires size <= MAX_CONNS
      ensures Valid() && fresh(conns) && conns.Length == size && lastport == 1024 && listenports == []
      ensures forall i :: 0 <= i < size ==> conns[i].Vacant()
    {
      var vacant := Slot(Conn(Closed, false, 0, 0, 0, 0, 0, 0, 0, 0), 0, 0, 0);
      conns := new Slot[size](_ => vacant);
      lastport, listenports := 1024, [];
    }

    /** Whether a connection in use has the local port. */
    method InUse(port: u16) returns (user: Option<nat>)
      ensures user.None? <==> !PortUsed(conns[..], port)
      ensures user.Some? ==> user.value < conns.Length && !conns[user.value].Vacant() && conns[user.value].lport == port
    {
      var c := 0;
      while c < conns.Length
        invariant c <= conns.Length
        invariant forall i :: 0 <= i < c ==> conns[i].Vacant() || conns[i].lport != port
      {
        if !conns[c].Vacant() && conns[c].lport == port {
          assert conns[..][c].lport == port;
          return Some(c);
        }
        c := c + 1;
      }
      user := None;
    }

    /** Counts up to a port that no connection in use has: at most one candidate more than there are connections. */
    method FindPort() returns (ghost tries: nat)
      requires Valid()
      modifies `lastport
      ensures Valid() && lastport == Candidate(old(lastport), tries)
      ensures !PortUsed(conns[..], lastport) && 1 <= tries <= conns.Length + 1
      ensures forall m :: 1 <= m < tries ==> PortUsed(conns[..], Candidate(old(lastport), m))
    {
      hide Candidate, Refusing, PortUsed;
      ghost var hit: set<nat> := {};
      ghost var t, start := conns[..], lastport as nat;
      NoneTried(t, start);
      tries := 0;
      var used := true;
      while used
        invariant lastport < PORT_LIMIT && lastport == Candidate(start, tries)
        invariant forall m :: 1 <= m < tries ==> PortUsed(t, Candidate(start, m))
        invariant !used ==> tries >= 1 && !PortUsed(t, lastport) && tries <= |t| + 1
        invariant used ==> Refusing(t, start, tries, hit) && (tries >= 1 ==> PortUsed(t, lastport))
        decreases used, |t| + 1 - tries
      {
        FewRefusals(t, start, tries, hit);
        NextCandidate(start, tries);
        lastport := lastport + 1;
        if lastport >= PORT_LIMIT {
          lastport := FIRST_PORT;
        }
        var user := InUse(lastport);
        if user.Some? {
          RefusedOnce(t, start, tries, hit, user.value);
          hit := hit + {user.value};
        }
        used := user.Some?;
        tries := tries + 1;
      }
    }

    method ChooseSlot() returns (found: Option<nat>)
      ensures Chosen(conns[..], found)
    {
      found := None;
      var c := 0;
      while c < conns.Length
        invariant c <= conns.Length
        invariant forall i :: 0 <= i < c ==> !conns[i].Vacant()
        invariant Chosen(conns[..c], found)
      {
        assert conns[..c + 1][..c] == conns[..c];
        if conns[c].Vacant() {
          return Some(c);
        }
        if conns[c].Lingers() {
          if found.None? || conns[c].conn.timer > conns[found.value].conn.timer {
            found := Some(c);
          }
        }
        c := c + 1;
      }
      assert conns[..c] == conns[..];
    }

    /** An active open, on a local port nobody uses. */
    method Connect(raddr: u32, rport: u16, iss: u32) returns (found: Option<nat>)
      requires Valid()
      modifies `lastport, conns
      ensures Valid() && Chosen(old(conns[..]), found) && !PortUsed(old(conns[..]), lastport)
      ensures found.None? ==> conns[..] == old(conns[..])
      ensures found.Some? ==> var k := found.value;
        conns[..] == old(conns[..])[k := Slot(TcpEngine.Connect(old(conns[k].conn), iss), lastport, rport, raddr)]
    {
      ghost var t := conns[..];
      ghost var tries := FindPort();
      found := ChooseSlot();
      if found.Some? {
        var s := Slot(TcpEngine.Connect(conns[found.value].conn, iss), lastport, rport, raddr);
        assert forall i :: 0 <= i < |t| ==> !t[i].Serves(s.lport, s.rport, s.raddr) by {
          UnusedPort(t, lastport, rport, raddr);
        }
        OpenKeeps(t, found.value, s);
        conns[found.value] := s;
        assert conns[..] == t[found.value := s];
      }
    }

    /** The connection a segment belongs to; there is never a second one. */
    method Demultiplex(destport: u16, srcport: u16, srcip: u32) returns (found: Option<nat>)
      requires Valid()
      ensures found.Some? ==>
        && found.value < conns.Length && conns[found.value].Serves(destport, srcport, srcip)
        && conns[found.value].lport == destport && conns[found.value].rport == srcport
        && conns[found.value].raddr == srcip && !conns[found.value].conn.IsClosed()
      ensures forall j :: 0 <= j < conns.Length && conns[j].Serves(destport, srcport, srcip) ==> found == Some(j)
    {
      var c := 0;
      while c < conns.Length
        invariant c <= conns.Length
        invariant forall j :: 0 <= j < c ==> !conns[j].Serves(destport, srcport, srcip)
      {
        if conns[c].Serves(destport, srcport, srcip) {
          forall j | 0 <= j < conns.Length && conns[j].Serves(destport, srcport, srcip) ensures j == c {
            AtMostOne(conns[..], c, j, destport, srcport, srcip);
          }
          return Some(c);
        }
        c := c + 1;
      }
      found := None;
    }

    /**
     A segment for which no connection was found: a SYN to a listening port opens a
     slot if there is one and is dropped if not; anything else is refused.
     */
    method NoConnection(s: Segment, destport: u16, srcport: u16, srcip: u32, iss: u32)
        returns (found: Option<nat>, out: Option<Segment>)
      requires Valid()
      requires forall j :: 0 <= j < conns.Length ==> !conns[j].Serves(destport, srcport, srcip)
      modifies conns
      ensures Valid()
      ensures var listened := s.OnlySyn() && destport in listenports;
        && (!listened ==> found.None? && out == Refusal(s))
        && (listened ==> Chosen(old(conns[..]), found))
        && (found.None? ==> conns[..] == old(conns[..]) && (listened ==> out.None?))
      ensures found.Some? ==> var k := found.value;
        var step := Accept(old(conns[k].conn), s, iss);
        out == step.out && conns[..] == old(conns[..])[k := Slot(step.conn, destport, srcport, srcip)]
    {
      if !s.OnlySyn() {
        return None, Refusal(s);
      }
      var c := 0;
      while c < |listenports| && listenports[c] != destport
        invariant c <= |listenports| && destport !in listenports[..c]
      {
        c := c + 1;
      }
      if c == |listenports| {
        assert listenports[..c] == listenports;
        return None, Refusal(s);
      }
      ghost var t := conns[..];
      found := ChooseSlot();
      if found.None? {
        return None, None;
      }
      var step := Accept(conns[found.value].conn, s, iss);
      var slot := Slot(step.conn, destport, srcport, srcip);
      OpenKeeps(t, found.value, slot);
      conns[found.value] := slot;
      assert conns[..] == t[found.value := slot];
      out := step.out;
    }

    /** A step of the connection in slot `k`. */
    method Step(k: nat, c: Conn)
      requires Valid() && k < conns.Length && !conns[k].Vacant()
      modifies conns
      ensures Valid() && conns[..] == old(conns[..])[k := old(conns[k]).(conn := c)]
    {
      StepKeepsDistinct(conns[..], k, c);
      ghost var t := conns[..];
      conns[k] := conns[k].(conn := c);
      assert conns[..] == t[k := t[k].(conn := c)];
    }
  }

  lemma UnusedPort(t: seq<Slot>, port: u16, rport: u16, raddr: u32)
    requires !PortUsed(t, port)
    ensures forall i :: 0 <= i < |t| ==> !t[i].Serves(port, rport, raddr)
  {
  }
}
