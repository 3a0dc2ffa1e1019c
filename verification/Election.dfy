/** Master election on the shared tables: one transaction under the master gate's row lock per heartbeat. */
module Election {
  import opened Wrappers

  // A node row, keyed by its address.
  datatype Address = Address(ip: string, port: int)

  datatype Node = Node(startedAt: int, lastSeen: int, isMaster: bool)

  // The master a term belongs to.
  datatype Master = Master(address: Address, startedAt: int)

  datatype Gate = Gate(master: Option<Master>, term: nat, leaseUntil: int)

  datatype Tables = Tables(nodes: map<Address, Node>, gate: Gate)

  // The order of the "ip:port" keys: strict and total.
  ghost predicate Orders(less: (Address, Address) -> bool) {
    && (forall a :: !less(a, a))
    && (forall a, b :: a != b ==> less(a, b) || less(b, a))
    && (forall a, b, c :: less(a, b) && less(b, c) ==> less(a, c))
  }

  // sortClusterNodes: by start time, then by key.
  predicate Precedes(less: (Address, Address) -> bool, nodes: map<Address, Node>, a: Address, b: Address)
    requires a in nodes && b in nodes
  {
    if nodes[a].startedAt != nodes[b].startedAt then nodes[a].startedAt < nodes[b].startedAt else less(a, b)
  }

  predicate Live(nodes: map<Address, Node>, a: Address, now: int, timeout: nat) { a in nodes && nodes[a].lastSeen >= now - timeout }

  // The least live node.
  ghost predicate Leads(less: (Address, Address) -> bool, nodes: map<Address, Node>, a: Address, now: int, timeout: nat) {
    && Live(nodes, a, now, timeout)
    && forall b :: Live(nodes, b, now, timeout) && b != a ==> Precedes(less, nodes, a, b)
  }

  lemma OneLeader(less: (Address, Address) -> bool, nodes: map<Address, Node>, a: Address, b: Address, now: int, timeout: nat)
    requires Orders(less) && Leads(less, nodes, a, now, timeout) && Leads(less, nodes, b, now, timeout)
    ensures a == b
  {
  }

  // A node's row after its own heartbeat: the flag of an existing row stays.
  function Beat(nodes: map<Address, Node>, self: Address, startedAt: int, now: int): map<Address, Node> {
    nodes[self := Node(startedAt, now, self in nodes && nodes[self].isMaster)]
  }

  function NextGate(gate: Gate, elected: Master, lastSeen: int, now: int, timeout: nat): Gate {
    var lapsed := now >= gate.leaseUntil;
    Gate(Some(elected), if gate.master != Some(elected) || lapsed then gate.term + 1 else gate.term, lastSeen + timeout)
  }

  // The one flagged row.
  function Flagged(nodes: map<Address, Node>, elected: Address): map<Address, Node> {
    map a | a in nodes :: nodes[a].(isMaster := a == elected)
  }

  // What an election of self leaves behind, and whom it elects.
  ghost predicate Elects(less: (Address, Address) -> bool, timeout: nat, t: Tables, self: Address, startedAt: int, now: int,
      elected: Address, t': Tables) {
    var nodes := Beat(t.nodes, self, startedAt, now);
    && Leads(less, nodes, elected, now, timeout)
    && t'.nodes == Flagged(nodes, elected)
    && t'.gate == NextGate(t.gate, Master(elected, nodes[elected].startedAt), nodes[elected].lastSeen, now, timeout)
  }

  // -- The imperative election -------------------------------------------------------------

  class ClusterTables {
    var nodes: map<Address, Node>
    var gate: Gate

    function Rows(): Tables
      reads this
    {
      Tables(nodes, gate)
    }

    // rows lists the live nodes after the heartbeat, in the order the query returns them.
    method Elect(less: (Address, Address) -> bool, timeout: nat, self: Address, startedAt: int, now: int,
        rows: seq<Address>) returns (elected: Address)
      requires Orders(less)
      requires forall a :: a in rows <==> Live(Beat(nodes, self, startedAt, now), a, now, timeout)
      modifies this
      ensures Elects(less, timeout, old(Rows()), self, startedAt, now, elected, Rows())
    {
      nodes := nodes[self := Node(startedAt, now, self in nodes && nodes[self].isMaster)];
      assert Live(nodes, self, now, timeout) && self in rows;
      elected := LeastOf(less, nodes, rows);
      var key := Master(elected, nodes[elected].startedAt);
      if gate.master != Some(key) || !(now < gate.leaseUntil) {
        gate := gate.(term := gate.term + 1, master := Some(key));
      }
      var leaseUntil := nodes[elected].lastSeen + timeout;
      if gate.leaseUntil != leaseUntil {
        gate := gate.(leaseUntil := leaseUntil);
      }
      nodes := map a | a in nodes :: if nodes[a].isMaster != (a == elected) then nodes[a].(isMaster := a == elected) else nodes[a];
    }
  }

  // The first row in sorted order.
  method LeastOf(less: (Address, Address) -> bool, nodes: map<Address, Node>, rows: seq<Address>) returns (least: Address)
    requires Orders(less) && rows != [] && forall a :: a in rows ==> a in nodes
    ensures least in rows && forall b :: b in rows && b != least ==> Precedes(less, nodes, least, b)
  {
    least := rows[0];
    var i := 1;
    while i < |rows|
      invariant 1 <= i <= |rows| && least in rows[..i]
      invariant forall b :: b in rows[..i] && b != least ==> Precedes(less, nodes, least, b)
    {
      assert rows[..i + 1] == rows[..i] + [rows[i]];
      if rows[i] != least && Precedes(less, nodes, rows[i], least) { least := rows[i]; }
      i := i + 1;
    }
    assert rows[..|rows|] == rows;
  }

  // -- Every election --------------------------------------------------------------------

  // After an election exactly one row is flagged, the least live one. The term rises by at most one,
  // and exactly if the master changed or its lease had lapsed. The lease lasts exactly as long as the
  // master counts as live without another heartbeat.
  lemma ElectionHolds(less: (Address, Address) -> bool, timeout: nat, t: Tables, self: Address, startedAt: int, now: int,
      elected: Address, t': Tables)
    requires Elects(less, timeout, t, self, startedAt, now, elected, t')
    ensures Leads(less, t'.nodes, elected, now, timeout)
    ensures forall a :: a in t'.nodes && t'.nodes[a].isMaster <==> a == elected
    ensures t'.gate.master == Some(Master(elected, t'.nodes[elected].startedAt))
    ensures t'.gate.term == t.gate.term + (if t'.gate.master != t.gate.master || now >= t.gate.leaseUntil then 1 else 0)
    ensures forall later :: Live(t'.nodes, elected, later, timeout) <==> later <= t'.gate.leaseUntil
  {
    var nodes := Beat(t.nodes, self, startedAt, now);
    forall b | Live(t'.nodes, b, now, timeout) && b != elected ensures Precedes(less, t'.nodes, elected, b) {
      assert Live(nodes, b, now, timeout);
    }
  }

  // What an election leaves behind, told from the rows before it: the sender's row has its start time and
  // the time of the heartbeat, the other rows differ in their flag at most, and among the rows
  // seen within the timeout the flagged one has the least start time, and of those the least key.
  lemma ElectionStores(less: (Address, Address) -> bool, timeout: nat, t: Tables, self: Address, startedAt: int, now: int,
      elected: Address, t': Tables)
    requires Elects(less, timeout, t, self, startedAt, now, elected, t')
    ensures t'.nodes.Keys == t.nodes.Keys + {self} && elected in t'.nodes
    ensures t'.nodes[self] == Node(startedAt, now, self == elected)
    ensures forall a :: a in t.nodes && a != self ==> t'.nodes[a] == Node(t.nodes[a].startedAt, t.nodes[a].lastSeen, a == elected)
    ensures t'.nodes[elected].lastSeen >= now - timeout
    ensures forall a :: a in t'.nodes && t'.nodes[a].lastSeen >= now - timeout && a != elected ==>
              || t'.nodes[elected].startedAt < t'.nodes[a].startedAt
              || (t'.nodes[elected].startedAt == t'.nodes[a].startedAt && less(elected, a))
    ensures t'.gate.leaseUntil == t'.nodes[elected].lastSeen + timeout
  {
    var nodes := Beat(t.nodes, self, startedAt, now);
    forall b | b in t'.nodes && t'.nodes[b].lastSeen >= now - timeout && b != elected ensures Precedes(less, t'.nodes, elected, b) {
      assert Live(nodes, b, now, timeout);
    }
  }

  // -- Histories -------------------------------------------------------------------------

  // One election of a history.
  datatype Event = Event(self: Address, startedAt: int, now: int, elected: Address, after: Tables)

  ghost predicate History(less: (Address, Address) -> bool, timeout: nat, t: Tables, events: seq<Event>) {
    forall i :: 0 <= i < |events| ==>
      var e := events[i];
      Elects(less, timeout, if i == 0 then t else events[i - 1].after, e.self, e.startedAt, e.now, e.elected, e.after)
  }

  // Terms never decrease over a history, and one term never names two masters.
  lemma {:induction false} TermsNameOneMaster(less: (Address, Address) -> bool, timeout: nat, t: Tables, events: seq<Event>, i: nat, j: nat)
    requires History(less, timeout, t, events) && i <= j < |events|
    ensures events[i].after.gate.term <= events[j].after.gate.term
    ensures events[i].after.gate.term == events[j].after.gate.term ==> events[i].after.gate.master == events[j].after.gate.master
    decreases j
  {
    if i < j {
      TermsNameOneMaster(less, timeout, t, events, i, j - 1);
      var e := events[j];
      ElectionHolds(less, timeout, events[j - 1].after, e.self, e.startedAt, e.now, e.elected, e.after);
    }
  }
}
