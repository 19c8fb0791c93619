/**
 * The program-wide state the GUI classes share through the static Session
 * class: the current editing mode, the log of edit actions and the corner
 * positions recorded while cropping the map. Node and the edit events are
 * kept abstract: a node is its labels and icon position, an action is the
 * data its event is built from.
 */
module SessionState {

  /** nodemanager.Mode, as far as the modelled code uses it; Idle is Mode.NONE. */
  datatype Mode = Idle | Add | Move | AddConnection | RemoveConnection | RescaleUL | RescaleLR

  /** What the data pane reads and changes of a node: its labels, where its icon is, and where the icon was at import. */
  datatype NodeInfo = NodeInfo(labels: set<string>, iconX: int, iconY: int, homeX: int, homeY: int)

  /** The edit events the data pane records, with the data each is built from. */
  datatype Action =
    | NodeDeleted(id: int, node: NodeInfo)
    | NodeMoved(id: int, fromX: int, fromY: int)
    | LabelAdded(id: int, text: string)
    | LabelRemoved(id: int, text: string)

  class Session {
    var mode: Mode
    var log: seq<Action>
    var newMapX: int
    var newMapY: int
    var newMapWidth: int
    var newMapHeight: int

    constructor (initial: Mode)
      ensures mode == initial && log == []
    {
      mode := initial;
      log := [];
    }

    /** Session.logAction, taken to append to the log. */
    method LogAction(a: Action)
      modifies this`log
      ensures log == old(log) + [a]
    {
      log := log + [a];
    }

    /** Session.setMode. */
    method SetMode(m: Mode)
      modifies this`mode
      ensures mode == m
    {
      mode := m;
    }
  }
}
