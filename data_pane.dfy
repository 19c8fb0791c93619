/**
 * NodeDataPane: the side panel that shows the selected node and offers the
 * edit options for it. Each option runs only once a node has been selected;
 * the reserved corner nodes (negative ids) cannot be deleted or moved, and an
 * edit event is logged only for an edit that took place. Dialogs are inputs:
 * the delete confirmation is a boolean and the label dialogs give a string.
 */
module DataPane {
  import opened SessionState

  /** The state the pane's options read and change. */
  datatype Pane = Pane(
    selected: int,
    hasNodeSelected: bool,
    mode: Mode,
    log: seq<Action>,
    nodes: map<int, NodeInfo>,
    hosted: set<int>)
  {
    /** A selected node can be looked up, and corner node -1 exists for a delete to select. */
    predicate Valid()
    {
      (hasNodeSelected ==> selected in nodes) && -1 in nodes
    }
  }

  /** The pane's option buttons, with the answer the option's dialog gets. */
  datatype Command =
    | DeleteThisNode(confirmed: bool)
    | MoveThisNode
    | ResetPosition
    | AddAConnection
    | RemoveAConnection
    | AddALabel(text: string)
    | RemoveALabel(text: string)

  /** selectNode: the node becomes the selected one. */
  function Selected(p: Pane, id: int): (q: Pane)
    requires -1 in p.nodes && id in p.nodes
    ensures q.Valid() && q.hasNodeSelected && q.selected == id
    ensures q.(selected := p.selected, hasNodeSelected := p.hasNodeSelected) == p
  {
    p.(selected := id, hasNodeSelected := true)
  }

  /** "Delete this node": refused for a corner node; once confirmed, log the deletion, take the node off the map and out of the table, select node -1. */
  function AfterDelete(p: Pane, confirmed: bool): (q: Pane)
    requires p.Valid() && p.hasNodeSelected
    ensures q.Valid()
    ensures p.selected < 0 || !confirmed ==> q == p
    ensures p.selected >= 0 && confirmed ==>
      && q.log == p.log + [NodeDeleted(p.selected, p.nodes[p.selected])]
      && q.hosted == p.hosted - {p.selected}
      && q.nodes.Keys == p.nodes.Keys - {p.selected}
      && (forall id :: id in q.nodes ==> q.nodes[id] == p.nodes[id])
      && q.selected == -1 && q.hasNodeSelected && q.mode == p.mode
  {
    if p.selected < 0 || !confirmed then p
    else
      var id := p.selected;
      var logged := p.(log := p.log + [NodeDeleted(id, p.nodes[id])]);
      var offMap := logged.(hosted := logged.hosted - {id});
      var removed := offMap.(nodes := offMap.nodes - {id});
      Selected(removed, -1)
  }

  /** "Move this node": refused for a corner node; otherwise enter MOVE mode and log the icon's current position. */
  function AfterMove(p: Pane): (q: Pane)
    requires p.Valid() && p.hasNodeSelected
    ensures q.Valid()
    ensures p.selected < 0 ==> q == p
    ensures p.selected >= 0 ==>
      q == p.(mode := Move, log := p.log + [NodeMoved(p.selected, p.nodes[p.selected].iconX, p.nodes[p.selected].iconY)])
  {
    if p.selected < 0 then p
    else
      var n := p.nodes[p.selected];
      p.(mode := Move).(log := p.log + [NodeMoved(p.selected, n.iconX, n.iconY)])
  }

  /** "Reset position": for any node, log the icon's position, then put the icon back where it was imported. */
  function AfterReset(p: Pane): (q: Pane)
    requires p.Valid() && p.hasNodeSelected
    ensures q.Valid()
    ensures |q.log| == |p.log| + 1 && q.log[..|p.log|] == p.log
    ensures q.log[|p.log|] == NodeMoved(p.selected, p.nodes[p.selected].iconX, p.nodes[p.selected].iconY)
    ensures q.nodes.Keys == p.nodes.Keys
    ensures q.nodes[p.selected].iconX == p.nodes[p.selected].homeX && q.nodes[p.selected].iconY == p.nodes[p.selected].homeY
    ensures q.nodes[p.selected].labels == p.nodes[p.selected].labels
    ensures q.nodes[p.selected].homeX == p.nodes[p.selected].homeX && q.nodes[p.selected].homeY == p.nodes[p.selected].homeY
    ensures forall id :: id in p.nodes && id != p.selected ==> q.nodes[id] == p.nodes[id]
    ensures q.selected == p.selected && q.hasNodeSelected == p.hasNodeSelected
    ensures q.mode == p.mode && q.hosted == p.hosted
  {
    var n := p.nodes[p.selected];
    var logged := p.(log := p.log + [NodeMoved(p.selected, n.iconX, n.iconY)]);
    logged.(nodes := logged.nodes[p.selected := n.(iconX := n.homeX, iconY := n.homeY)])
  }

  /** Node.addLabel, taken to be set insertion that reports whether the label was new; the event is logged only then. */
  function AfterAddLabel(p: Pane, text: string): (q: Pane)
    requires p.Valid() && p.hasNodeSelected
    ensures q.Valid()
    ensures text in p.nodes[p.selected].labels ==> q == p
    ensures text !in p.nodes[p.selected].labels ==>
      && q.log == p.log + [LabelAdded(p.selected, text)]
      && q.nodes == p.nodes[p.selected := p.nodes[p.selected].(labels := p.nodes[p.selected].labels + {text})]
    ensures q.selected == p.selected && q.hasNodeSelected == p.hasNodeSelected
    ensures q.mode == p.mode && q.hosted == p.hosted
  {
    var n := p.nodes[p.selected];
    if text in n.labels then p
    else
      var labelled := p.(nodes := p.nodes[p.selected := n.(labels := n.labels + {text})]);
      var logged := labelled.(log := labelled.log + [LabelAdded(p.selected, text)]);
      Selected(logged, p.selected)
  }

  /** Node.removeLabel, taken to be set removal that reports whether the label was there; the event is logged only then. */
  function AfterRemoveLabel(p: Pane, text: string): (q: Pane)
    requires p.Valid() && p.hasNodeSelected
    ensures q.Valid()
    ensures text !in p.nodes[p.selected].labels ==> q == p
    ensures text in p.nodes[p.selected].labels ==>
      && q.log == p.log + [LabelRemoved(p.selected, text)]
      && q.nodes == p.nodes[p.selected := p.nodes[p.selected].(labels := p.nodes[p.selected].labels - {text})]
    ensures q.selected == p.selected && q.hasNodeSelected == p.hasNodeSelected
    ensures q.mode == p.mode && q.hosted == p.hosted
  {
    var n := p.nodes[p.selected];
    if text !in n.labels then p
    else
      var unlabelled := p.(nodes := p.nodes[p.selected := n.(labels := n.labels - {text})]);
      var logged := unlabelled.(log := unlabelled.log + [LabelRemoved(p.selected, text)]);
      Selected(logged, p.selected)
  }

  /** The option's action, run on a selected node. */
  function Act(p: Pane, c: Command): (q: Pane)
    requires p.Valid() && p.hasNodeSelected
    ensures q.Valid() && q.hasNodeSelected
  {
    match c
    case DeleteThisNode(confirmed) => AfterDelete(p, confirmed)
    case MoveThisNode => AfterMove(p)
    case ResetPosition => AfterReset(p)
    case AddAConnection => p.(mode := AddConnection)
    case RemoveAConnection => p.(mode := RemoveConnection)
    case AddALabel(text) => AfterAddLabel(p, text)
    case RemoveALabel(text) => AfterRemoveLabel(p, text)
  }

  /** addOption's listener: a button press runs the option only when a node is selected. */
  function AfterPress(p: Pane, c: Command): (q: Pane)
    requires p.Valid()
    ensures q.Valid()
    ensures !p.hasNodeSelected ==> q == p
    ensures p.hasNodeSelected ==> q.hasNodeSelected
  {
    if p.hasNodeSelected then Act(p, c) else p
  }

  /** A run of button presses. */
  function AfterPresses(p: Pane, cs: seq<Command>): (q: Pane)
    requires p.Valid()
    ensures q.Valid()
    decreases |cs|
  {
    if cs == [] then p else AfterPresses(AfterPress(p, cs[0]), cs[1..])
  }

  /** Before any node is selected, no press changes anything. */
  lemma {:induction false} NothingBeforeSelection(p: Pane, cs: seq<Command>)
    requires p.Valid() && !p.hasNodeSelected
    ensures AfterPresses(p, cs) == p
    decreases |cs|
  {
    if cs != [] {
      NothingBeforeSelection(AfterPress(p, cs[0]), cs[1..]);
    }
  }

  /** Once a node is selected, a selection stays: no option clears it. */
  lemma {:induction false} SelectionStays(p: Pane, cs: seq<Command>)
    requires p.Valid() && p.hasNodeSelected
    ensures AfterPresses(p, cs).hasNodeSelected
    decreases |cs|
  {
    if cs != [] {
      SelectionStays(AfterPress(p, cs[0]), cs[1..]);
    }
  }

  /** No run of options removes a corner node from the table. */
  lemma {:induction false} CornersSurvive(p: Pane, cs: seq<Command>, id: int)
    requires p.Valid() && id < 0 && id in p.nodes
    ensures id in AfterPresses(p, cs).nodes
    decreases |cs|
  {
    if cs != [] {
      var q := AfterPress(p, cs[0]);
      assert id in q.nodes;
      CornersSurvive(q, cs[1..], id);
    }
  }

  /** The log only grows, by at most one event per press. */
  lemma {:induction false} LogOnlyGrows(p: Pane, cs: seq<Command>)
    requires p.Valid()
    ensures |p.log| <= |AfterPresses(p, cs).log| <= |p.log| + |cs|
    ensures AfterPresses(p, cs).log[..|p.log|] == p.log
    decreases |cs|
  {
    if cs != [] {
      var q := AfterPress(p, cs[0]);
      assert |p.log| <= |q.log| <= |p.log| + 1 && q.log[..|p.log|] == p.log;
      LogOnlyGrows(q, cs[1..]);
      var r := AfterPresses(q, cs[1..]);
      assert r.log[..|p.log|] == r.log[..|q.log|][..|p.log|];
    }
  }

  /** The pane itself, with the shared session and the node table and map host it acts on. */
  class NodeDataPane {
    var selected: int
    var hasNodeSelected: bool
    var nodes: map<int, NodeInfo>
    var hosted: set<int>
    const session: Session

    function State(): Pane
      reads this, session
    {
      Pane(selected, hasNodeSelected, session.mode, session.log, nodes, hosted)
    }

    ghost predicate Valid()
      reads this, session
    {
      State().Valid()
    }

    /** A pane with no node selected. */
    constructor (s: Session, table: map<int, NodeInfo>, onMap: set<int>)
      requires -1 in table
      ensures session == s && nodes == table && hosted == onMap && !hasNodeSelected
      ensures Valid()
    {
      session := s;
      nodes := table;
      hosted := onMap;
      selected := 0;
      hasNodeSelected := false;
    }

    /** A pane with node n selected. */
    constructor Showing(s: Session, table: map<int, NodeInfo>, onMap: set<int>, n: int)
      requires -1 in table && n in table
      ensures session == s && nodes == table && hosted == onMap
      ensures hasNodeSelected && selected == n
      ensures Valid()
    {
      session := s;
      nodes := table;
      hosted := onMap;
      selected := n;
      hasNodeSelected := true;
    }

    method SelectNode(n: int)
      requires -1 in nodes && n in nodes
      modifies this`selected, this`hasNodeSelected
      ensures State() == Selected(old(State()), n)
    {
      hasNodeSelected := true;
      selected := n;
    }

    method DeleteThisNodeOption(confirmed: bool)
      requires Valid() && hasNodeSelected
      modifies this, session`mode, session`log
      ensures State() == AfterDelete(old(State()), confirmed)
    {
      if selected < 0 {
        // the corner nodes cannot be deleted
      } else if confirmed {
        session.LogAction(NodeDeleted(selected, nodes[selected]));
        hosted := hosted - {selected};
        nodes := nodes - {selected};
        SelectNode(-1);
      }
    }

    method MoveThisNodeOption()
      requires Valid() && hasNodeSelected
      modifies session`mode, session`log
      ensures State() == AfterMove(old(State()))
    {
      if selected >= 0 {
        session.SetMode(Move);
        session.LogAction(NodeMoved(selected, nodes[selected].iconX, nodes[selected].iconY));
      }
    }

    method ResetPositionOption()
      requires Valid() && hasNodeSelected
      modifies this, session`mode, session`log
      ensures State() == AfterReset(old(State()))
    {
      var n := nodes[selected];
      session.LogAction(NodeMoved(selected, n.iconX, n.iconY));
      nodes := nodes[selected := n.(iconX := n.homeX, iconY := n.homeY)];
    }

    /** Node.addLabel on the table. */
    method AddLabel(id: int, text: string) returns (added: bool)
      requires id in nodes
      modifies this`nodes
      ensures added <==> text !in old(nodes)[id].labels
      ensures nodes == old(nodes)[id := old(nodes)[id].(labels := old(nodes)[id].labels + {text})]
    {
      added := text !in nodes[id].labels;
      nodes := nodes[id := nodes[id].(labels := nodes[id].labels + {text})];
    }

    /** Node.removeLabel on the table. */
    method RemoveLabel(id: int, text: string) returns (removed: bool)
      requires id in nodes
      modifies this`nodes
      ensures removed <==> text in old(nodes)[id].labels
      ensures nodes == old(nodes)[id := old(nodes)[id].(labels := old(nodes)[id].labels - {text})]
    {
      removed := text in nodes[id].labels;
      nodes := nodes[id := nodes[id].(labels := nodes[id].labels - {text})];
    }

    method AddALabelOption(text: string)
      requires Valid() && hasNodeSelected
      modifies this, session`mode, session`log
      ensures State() == AfterAddLabel(old(State()), text)
    {
      var added := AddLabel(selected, text);
      if added {
        session.LogAction(LabelAdded(selected, text));
        SelectNode(selected);
      } else {
        assert old(nodes)[selected].labels + {text} == old(nodes)[selected].labels;
        assert nodes == old(nodes);
      }
    }

    method RemoveALabelOption(text: string)
      requires Valid() && hasNodeSelected
      modifies this, session`mode, session`log
      ensures State() == AfterRemoveLabel(old(State()), text)
    {
      var removed := RemoveLabel(selected, text);
      if removed {
        session.LogAction(LabelRemoved(selected, text));
        SelectNode(selected);
      } else {
        assert old(nodes)[selected].labels - {text} == old(nodes)[selected].labels;
        assert nodes == old(nodes);
      }
    }

    /** A press of one of the option buttons. */
    method Press(c: Command)
      requires Valid()
      modifies this, session`mode, session`log
      ensures State() == AfterPress(old(State()), c)
    {
      if hasNodeSelected {
        match c
        case DeleteThisNode(confirmed) => DeleteThisNodeOption(confirmed);
        case MoveThisNode => MoveThisNodeOption();
        case ResetPosition => ResetPositionOption();
        case AddAConnection => session.SetMode(AddConnection);
        case RemoveAConnection => session.SetMode(RemoveConnection);
        case AddALabel(text) => AddALabelOption(text);
        case RemoveALabel(text) => RemoveALabelOption(text);
      }
    }
  }
}
