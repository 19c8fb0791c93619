/**
 * ConnectionAddedEvent: the edit-log entry recorded when node id1 is
 * connected to node id2. Undo removes id2 from id1's adjacency and redo puts
 * it back. Node's static table is modelled as a map from id to adjacency set;
 * Node.removeAdj and Node.addAdjId are taken to be set removal and insertion,
 * and nothing is assumed about what they do to id2's own entry.
 */
module Events {

  /** The adjacency table after id2 is removed from id1's set. */
  function WithoutAdj(adj: map<int, set<int>>, id1: int, id2: int): (r: map<int, set<int>>)
    requires id1 in adj
    ensures r.Keys == adj.Keys
    ensures id2 !in r[id1]
    ensures forall n :: n in adj[id1] && n != id2 ==> n in r[id1]
    ensures r[id1] <= adj[id1]
    ensures forall n :: n in adj && n != id1 ==> r[n] == adj[n]
  {
    adj[id1 := adj[id1] - {id2}]
  }

  /** The adjacency table after id2 is added to id1's set. */
  function WithAdj(adj: map<int, set<int>>, id1: int, id2: int): (r: map<int, set<int>>)
    requires id1 in adj
    ensures r.Keys == adj.Keys
    ensures id2 in r[id1]
    ensures forall n :: n in r[id1] && n != id2 ==> n in adj[id1]
    ensures adj[id1] <= r[id1]
    ensures forall n :: n in adj && n != id1 ==> r[n] == adj[n]
  {
    adj[id1 := adj[id1] + {id2}]
  }

  /** The node table: each live node's adjacency set, by id. */
  class NodeTable {
    var adj: map<int, set<int>>

    constructor (initial: map<int, set<int>>)
      ensures adj == initial
    {
      adj := initial;
    }

    /** Node.get(id).removeAdj(other). */
    method RemoveAdj(id: int, other: int)
      requires id in adj
      modifies this
      ensures adj == WithoutAdj(old(adj), id, other)
    {
      adj := adj[id := adj[id] - {other}];
    }

    /** Node.get(id).addAdjId(other). */
    method AddAdjId(id: int, other: int)
      requires id in adj
      modifies this
      ensures adj == WithAdj(old(adj), id, other)
    {
      adj := adj[id := adj[id] + {other}];
    }
  }

  class ConnectionAddedEvent {
    const id1: int
    const id2: int

    /** The endpoints are fixed once, so every undo and redo acts on the same pair. */
    constructor (from: int, to: int)
      ensures id1 == from && id2 == to
    {
      id1 := from;
      id2 := to;
    }

    /** Removes id2 from node id1's adjacency; Node.get(id1) must find the node. */
    method Undo(nodes: NodeTable)
      requires id1 in nodes.adj
      modifies nodes
      ensures nodes.adj == WithoutAdj(old(nodes.adj), id1, id2)
    {
      nodes.RemoveAdj(id1, id2);
    }

    /** Adds id2 back to node id1's adjacency. */
    method Redo(nodes: NodeTable)
      requires id1 in nodes.adj
      modifies nodes
      ensures nodes.adj == WithAdj(old(nodes.adj), id1, id2)
    {
      nodes.AddAdjId(id1, id2);
    }
  }

  /** Redo right after undo restores the table when the connection was there before the undo. */
  lemma RedoAfterUndo(adj: map<int, set<int>>, id1: int, id2: int)
    requires id1 in adj && id2 in adj[id1]
    ensures WithAdj(WithoutAdj(adj, id1, id2), id1, id2) == adj
  {
    var r := WithAdj(WithoutAdj(adj, id1, id2), id1, id2);
    assert r[id1] == adj[id1];
    assert forall n :: n in r ==> r[n] == adj[n];
  }

  /** Undo right after redo restores the table when the connection was absent before the redo. */
  lemma UndoAfterRedo(adj: map<int, set<int>>, id1: int, id2: int)
    requires id1 in adj && id2 !in adj[id1]
    ensures WithoutAdj(WithAdj(adj, id1, id2), id1, id2) == adj
  {
    var r := WithoutAdj(WithAdj(adj, id1, id2), id1, id2);
    assert r[id1] == adj[id1];
    assert forall n :: n in r ==> r[n] == adj[n];
  }

  /** Undoing twice is undoing once, and redoing twice is redoing once. */
  lemma RepeatIsIdempotent(adj: map<int, set<int>>, id1: int, id2: int)
    requires id1 in adj
    ensures WithoutAdj(WithoutAdj(adj, id1, id2), id1, id2) == WithoutAdj(adj, id1, id2)
    ensures WithAdj(WithAdj(adj, id1, id2), id1, id2) == WithAdj(adj, id1, id2)
  {
    var once, twice := WithoutAdj(adj, id1, id2), WithoutAdj(WithoutAdj(adj, id1, id2), id1, id2);
    assert twice[id1] == once[id1];
    assert forall n :: n in twice ==> twice[n] == once[n];
    var added, addedTwice := WithAdj(adj, id1, id2), WithAdj(WithAdj(adj, id1, id2), id1, id2);
    assert addedTwice[id1] == added[id1];
    assert forall n :: n in addedTwice ==> addedTwice[n] == added[n];
  }

  /** Undo then redo leaves id2 connected and undo then redo then undo leaves it disconnected, whatever the table was. */
  lemma LastStepDecides(adj: map<int, set<int>>, id1: int, id2: int)
    requires id1 in adj
    ensures id2 in WithAdj(WithoutAdj(adj, id1, id2), id1, id2)[id1]
    ensures id2 !in WithoutAdj(WithAdj(WithoutAdj(adj, id1, id2), id1, id2), id1, id2)[id1]
  {
  }

  /** A client: recording a connection that was absent, then undo and redo, ends where the connection was made. */
  method UndoRedoScenario(nodes: NodeTable, from: int, to: int)
    requires from in nodes.adj && to !in nodes.adj[from]
    modifies nodes
    ensures nodes.adj == WithAdj(old(nodes.adj), from, to)
  {
    nodes.AddAdjId(from, to);
    ghost var connected := nodes.adj;
    var e := new ConnectionAddedEvent(from, to);
    e.Undo(nodes);
    assert nodes.adj == old(nodes.adj) by { UndoAfterRedo(old(nodes.adj), from, to); }
    e.Redo(nodes);
    assert nodes.adj == connected;
  }
}
