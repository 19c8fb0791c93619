# Wayfinding node manager: manifest codec, connection event, node data pane and map viewport

This project models four sequential pieces of the wayfinding node manager, a
Swing editor for a graph of map waypoints ("nodes"). It also proves properties
of each piece.

- **Manifest codec** (`Manifest`, built on `JavaStrings`). The manifest is a
  two-column `Data, URL` table. `ReadStream` reads it line by line. It skips
  the header, splits each later line on `,` and maps field 0 to field 1. A line
  with fewer than two fields is skipped. `ContentsToWrite` renders the header
  and then one `key, value` line per entry, in the map's unspecified order.
  `ManifestId` takes the Drive id out of a link, that is, the text after
  `id=`. `String.split` is modelled exactly: with no match the whole string
  is the only field, and otherwise trailing empty fields are dropped.
  `BufferedReader.readLine` is modelled too: lines end at `\n`, `\r` or `\r\n`.
- **Connection-added edit event** (`Events`). `Undo` removes `id2` from node
  `id1`'s adjacency set and `Redo` adds it back. Node's static table is a
  `NodeTable` object holding a map from id to adjacency set.
- **Node data pane** (`DataPane`, with the shared `SessionState`). These are
  the option buttons of the selected node. Each option runs only once a node
  is selected. The corner nodes (negative ids) cannot be deleted or moved. A
  label event is logged only when the label operation succeeds. Each option is
  a method of `NodeDataPane`, proved equal to a step function on a `Pane`
  value. Properties over whole runs of button presses are then proved about
  the step functions.
- **Map viewport** (`MapView`). This covers the clip rectangle that `pan`,
  `resize` and `setImage` maintain, the in-place crop clamp on an `int[4]`
  array, and the mode transitions of `mouseClicked`.

Dialogs become inputs: the delete confirmation is a boolean and each label
dialog gives a string. The icon positions of nodes -1 and -2 and the
component's size are parameters.

## Model

| member | source | states |
|---|---|---|
| `JavaStrings.Split` | src/nodemanager/io/WayfindingManifest.java:141 | With no match, the whole string is the only field. Otherwise the result is a prefix of the pieces, which `Pieces` cuts at each match from left to right without overlap. The prefix does not end in an empty field, and only empty trailing pieces are dropped. |
| `JavaStrings.DropTrailingEmpty` | src/nodemanager/io/WayfindingManifest.java:141 | Gives the longest prefix of the pieces that does not end in an empty string. Everything it cuts off is empty. |
| `JavaStrings.PiecesNoMatch` | src/nodemanager/io/WayfindingManifest.java:141 | A string that does not contain the delimiter is a single piece. |
| `JavaStrings.PiecesAtFirstMatch` | src/nodemanager/io/WayfindingManifest.java:44 | When the first match is at index n, the first piece is `s[..n]` and the rest is split after the match. |
| `JavaStrings.SplitTwoFields` | src/nodemanager/io/WayfindingManifest.java:141 | If neither `k` nor `w` contains a comma and `w` is non-empty, then `split(",")` of `k,w` is exactly `[k, w]`. |
| `JavaStrings.MarkerAfterFreeText` | src/nodemanager/io/WayfindingManifest.java:43-44 | If `a` contains no `id=`, the first `id=` in `a + "id=" + b` is at index `\|a\|`, because `id=` cannot overlap itself. |
| `JavaStrings.ReadLines` | src/nodemanager/io/WayfindingManifest.java:138-139 | The lines `readLine` returns one after another. None of them contains a line break. |
| `JavaStrings.ReadLinesJoin` | src/nodemanager/io/WayfindingManifest.java:138-141 | Reading back lines joined by `\n`, `\r` or `\r\n` returns the same lines. This holds when no line contains a break and the last line is non-empty. |
| `Manifest.WayfindingManifest.constructor` | src/nodemanager/io/WayfindingManifest.java:29-34 | A new manifest has an empty URL table. |
| `Manifest.ApplyLine` | src/nodemanager/io/WayfindingManifest.java:141-151 | A line adds or overwrites only the key it names, with its field 1. Every other key keeps its value, and no key is removed. |
| `Manifest.ApplyLines` | src/nodemanager/io/WayfindingManifest.java:139-153 | Applying lines in order never removes a key. |
| `Manifest.ReadInto` | src/nodemanager/io/WayfindingManifest.java:136-152 | Reading never removes a key. A stream of at most one line (only the header) leaves the table unchanged. |
| `Manifest.WayfindingManifest.ReadStream` | src/nodemanager/io/WayfindingManifest.java:133-157 | The new table is the old table with every line after the first applied in order. The first line is not applied. |
| `Manifest.ApplyLinesAppend` | src/nodemanager/io/WayfindingManifest.java:139-153 | Reading `a + b` is reading `a` and then reading `b` into the result. |
| `Manifest.ApplyLinesKeys` | src/nodemanager/io/WayfindingManifest.java:140-144 | A key is present after reading iff it was present before or some line with at least two fields names it. A key that no line names keeps its old value. |
| `Manifest.ApplyLinesLastWins` | src/nodemanager/io/WayfindingManifest.java:143 | The last line that names a key sets its value to that line's field 1, so later lines overwrite earlier ones. |
| `Manifest.SkipsMalformed` | src/nodemanager/io/WayfindingManifest.java:140-151 | A line with fewer than two fields changes nothing, and the lines after it are still applied. |
| `Manifest.HeaderNotStored` | src/nodemanager/io/WayfindingManifest.java:136-152 | If a key is named only by the first line, it stays absent. |
| `Manifest.WayfindingManifest.ContainsUrlFor` | src/nodemanager/io/WayfindingManifest.java:99-101 | True exactly when the table has an entry for the title. What a read does to it is stated by `UrlPresentAfterRead`. |
| `Manifest.UrlPresentAfterRead` | src/nodemanager/io/WayfindingManifest.java:99-101 | After a read, `ContainsUrlFor(t)` holds iff `t` was already present or some line after the header names `t`. |
| `Manifest.ManifestIdSegment` | src/nodemanager/io/WayfindingManifest.java:43-45 | When a link has `id=`, the id is the non-empty text between the first `id=` and the next one (or the end of the link). |
| `Manifest.ManifestId` | src/nodemanager/io/WayfindingManifest.java:43-45 | A link without `id=` is its own id. A link with `id=` gives field 1 of `split("id=")`, or no id when that field does not exist. |
| `Manifest.ManifestIdEmptySegment` | src/nodemanager/io/WayfindingManifest.java:43-45 | Two markers in a row followed by text, as in `xid=id=abc`, give the empty id. |
| `Manifest.ManifestIdEmptyAfterMarker` | src/nodemanager/io/WayfindingManifest.java:43-45 | A link that ends with its only `id=` gives no id, because `split("id=")[1]` throws. |
| `Manifest.ImportManifest` | src/nodemanager/io/WayfindingManifest.java:41-48 | Gives a fresh manifest exactly when an id can be extracted. Its table is what reading the downloaded lines produces. |
| `Manifest.Render` | src/nodemanager/io/WayfindingManifest.java:121-129 | The text starts with the header, and an empty table writes the header alone. |
| `Manifest.WayfindingManifest.ContentsToWrite` | src/nodemanager/io/WayfindingManifest.java:114-130 | Returns the header followed by one `NL + key + ", " + value` line per entry. The order lists every key exactly once. |
| `Manifest.EntryLineNoBreak` | src/nodemanager/io/WayfindingManifest.java:123-127 | An entry line contains no line break when its key and value contain none. |
| `Manifest.WrittenLines` | src/nodemanager/io/WayfindingManifest.java:121-129 | Read line by line, the written text is the header followed by the entry lines. |
| `Manifest.WrittenLineCount` | src/nodemanager/io/WayfindingManifest.java:121-129 | The written text has exactly 1 + \|urls\| lines. |
| `Manifest.ListingLength` | src/nodemanager/io/WayfindingManifest.java:122 | A duplicate-free listing of a set's elements is as long as the set. |
| `Manifest.EntryStored` | src/nodemanager/io/WayfindingManifest.java:126 | Reading a written line `k, v` stores `k` with the value `" " + v`. |
| `Manifest.ApplyEntryLines` | src/nodemanager/io/WayfindingManifest.java:141-143 | Reading the written entry lines adds each listed key with its value after a leading space. |
| `Manifest.EntryNamesKey` | src/nodemanager/io/WayfindingManifest.java:126-143 | A written line names its own key whenever the key holds no comma, whatever the value holds. |
| `Manifest.ReadBackKeys` | src/nodemanager/io/WayfindingManifest.java:121-143 | Reading back the written text gives exactly the written keys. This needs only comma-free keys and no line breaks; values may contain commas. |
| `Manifest.WriteThenRead` | src/nodemanager/io/WayfindingManifest.java:121-143 | Reading back the written text recovers every key. Each value comes back with a leading space. This holds when keys and values contain no comma or line break. |
| `Events.WithoutAdj` | src/nodemanager/events/ConnectionAddedEvent.java:20 | After removal, `id2` is not in `id1`'s set. Every other member of that set stays, and every other node's set is unchanged. |
| `Events.WithAdj` | src/nodemanager/events/ConnectionAddedEvent.java:25 | After insertion, `id2` is in `id1`'s set. Nothing else is added, and every other node's set is unchanged. |
| `Events.NodeTable.RemoveAdj` | src/nodemanager/events/ConnectionAddedEvent.java:20 | The table becomes `WithoutAdj` of the old table. |
| `Events.NodeTable.AddAdjId` | src/nodemanager/events/ConnectionAddedEvent.java:25 | The table becomes `WithAdj` of the old table. |
| `Events.ConnectionAddedEvent.constructor` | src/nodemanager/events/ConnectionAddedEvent.java:13-16 | The endpoints are fixed once as `(from, to)`. |
| `Events.ConnectionAddedEvent.Undo` | src/nodemanager/events/ConnectionAddedEvent.java:19-21 | Removes `id2` from `id1`'s adjacency and changes nothing else. |
| `Events.ConnectionAddedEvent.Redo` | src/nodemanager/events/ConnectionAddedEvent.java:24-26 | Adds `id2` to `id1`'s adjacency and changes nothing else. |
| `Events.RedoAfterUndo` | src/nodemanager/events/ConnectionAddedEvent.java:19-26 | A redo right after an undo restores the table, provided `id2` was connected before the undo. |
| `Events.UndoAfterRedo` | src/nodemanager/events/ConnectionAddedEvent.java:19-26 | An undo right after a redo restores the table, provided `id2` was absent before the redo. |
| `Events.RepeatIsIdempotent` | src/nodemanager/events/ConnectionAddedEvent.java:19-26 | Undoing twice has the same effect as undoing once, and the same holds for redo. |
| `Events.LastStepDecides` | src/nodemanager/events/ConnectionAddedEvent.java:19-26 | From any table, undo then redo leaves `id2` connected to `id1`, and undo, redo, undo leaves it disconnected. |
| `Events.UndoRedoScenario` | src/nodemanager/events/ConnectionAddedEvent.java:13-26 | Connect, undo, redo ends in the connected table. |
| `SessionState.Session.LogAction` | src/nodemanager/gui/NodeDataPane.java:44 | Appends the action to the log. |
| `SessionState.Session.SetMode` | src/nodemanager/gui/NodeDataPane.java:55 | Sets the mode. |
| `DataPane.Selected` | src/nodemanager/gui/NodeDataPane.java:127-136 | Selecting node `id` sets `hasNodeSelected` and `selected == id`. Nothing else changes. |
| `DataPane.AfterDelete` | src/nodemanager/gui/NodeDataPane.java:39-49 | A corner node or an unconfirmed delete changes nothing. Otherwise the pane logs `NodeDeleted` with the node's snapshot, removes the node from the map host and from the table, keeps every other node, and selects node -1. |
| `DataPane.AfterMove` | src/nodemanager/gui/NodeDataPane.java:51-58 | A corner node changes nothing. Otherwise the mode becomes MOVE and one `NodeMoved` with the icon's current position is logged. |
| `DataPane.AfterReset` | src/nodemanager/gui/NodeDataPane.java:60-64 | For any id, one `NodeMoved` with the icon's position before the reset is logged. The icon then returns to its import position. The node's labels and import position, every other node, the selection, the mode and the map host stay as they were. |
| `DataPane.AfterAddLabel` | src/nodemanager/gui/NodeDataPane.java:76-84 | A label that is already present changes nothing. A new label is added and `LabelAdded` is logged. The selection, the mode and the map host never change. |
| `DataPane.AfterRemoveLabel` | src/nodemanager/gui/NodeDataPane.java:86-92 | An absent label changes nothing. A present label is removed and `LabelRemoved` is logged. The selection, the mode and the map host never change. |
| `DataPane.Act` | src/nodemanager/gui/NodeDataPane.java:39-92 | Every option keeps the pane valid and keeps a node selected. |
| `DataPane.AfterPress` | src/nodemanager/gui/NodeDataPane.java:103-111 | A press with no node selected changes nothing. |
| `DataPane.AfterPresses` | src/nodemanager/gui/NodeDataPane.java:103-111 | A run of presses keeps the pane valid: the selected node exists and node -1 exists. |
| `DataPane.NothingBeforeSelection` | src/nodemanager/gui/NodeDataPane.java:103-111 | No run of presses changes anything before a node is selected. |
| `DataPane.SelectionStays` | src/nodemanager/gui/NodeDataPane.java:127-135 | Once a node is selected, no run of presses clears the selection. |
| `DataPane.CornersSurvive` | src/nodemanager/gui/NodeDataPane.java:40-47 | No run of presses removes a node with a negative id from the table. |
| `DataPane.LogOnlyGrows` | src/nodemanager/gui/NodeDataPane.java:39-92 | A run of presses only appends to the log, at most one event per press. |
| `DataPane.NodeDataPane.constructor` | src/nodemanager/gui/NodeDataPane.java:25-37 | A new pane has no node selected. |
| `DataPane.NodeDataPane.Showing` | src/nodemanager/gui/NodeDataPane.java:118-121 | A pane built for node `n` has `n` selected. |
| `DataPane.NodeDataPane.SelectNode` | src/nodemanager/gui/NodeDataPane.java:127-136 | The state becomes `Selected` of the old state. |
| `DataPane.NodeDataPane.DeleteThisNodeOption` | src/nodemanager/gui/NodeDataPane.java:39-49 | The state becomes `AfterDelete` of the old state. |
| `DataPane.NodeDataPane.MoveThisNodeOption` | src/nodemanager/gui/NodeDataPane.java:51-58 | The state becomes `AfterMove` of the old state. |
| `DataPane.NodeDataPane.ResetPositionOption` | src/nodemanager/gui/NodeDataPane.java:60-64 | The state becomes `AfterReset` of the old state. |
| `DataPane.NodeDataPane.AddLabel` | src/nodemanager/gui/NodeDataPane.java:78 | Inserts the label and reports whether it was new. |
| `DataPane.NodeDataPane.RemoveLabel` | src/nodemanager/gui/NodeDataPane.java:88 | Removes the label and reports whether it was present. |
| `DataPane.NodeDataPane.AddALabelOption` | src/nodemanager/gui/NodeDataPane.java:76-84 | The state becomes `AfterAddLabel` of the old state. |
| `DataPane.NodeDataPane.RemoveALabelOption` | src/nodemanager/gui/NodeDataPane.java:86-92 | The state becomes `AfterRemoveLabel` of the old state. |
| `DataPane.NodeDataPane.Press` | src/nodemanager/gui/NodeDataPane.java:103-111 | The state becomes `AfterPress` of the old state. |
| `MapView.Min` | src/nodemanager/gui/MapImage.java:128-129 | The result is at most both arguments and equals one of them. |
| `MapView.PanAxis` | src/nodemanager/gui/MapImage.java:111-124 | If the moved position fits, it is kept exactly. If the size fits the image, the result lies in `[0, limit - size]`. A move before the start clamps to 0, and a move past the far edge lands at `limit - size`. |
| `MapView.Panned` | src/nodemanager/gui/MapImage.java:111-124 | The size is unchanged. If the size fits, the clip ends up inside the image. A move that stays inside is applied exactly. Per axis, a move before the start clamps to 0 and a move past the far edge lands at `imageW - w` or `imageH - h`. |
| `MapView.Resized` | src/nodemanager/gui/MapImage.java:127-129 | The clip size becomes `min(view, image)` on each axis, and the position is kept. |
| `MapView.ResizeCanLeaveImage` | src/nodemanager/gui/MapImage.java:127-129 | A clip inside the image can leave it after a resize: see Findings. |
| `MapView.ResizedWithin` | src/nodemanager/gui/MapImage.java:127-129 | Has the same size as `Resized` and always stays inside the image. It equals `Resized` whenever that result is already inside. |
| `MapView.ClampedCrop` | src/nodemanager/gui/MapImage.java:192-203 | After clamping, `x, y >= 0` and the crop ends inside the image. Width and height never grow. A negative `x` or `y` becomes 0. A width or height reaching past the image becomes `imageW - x` or `imageH - y`. Every other component is kept. |
| `MapView.ClampKeepsInsideCrop` | src/nodemanager/gui/MapImage.java:192-203 | A crop that is already inside the image is left unchanged. |
| `MapView.CropAccepted` | src/nodemanager/gui/MapImage.java:210 | `getSubimage` returns only for a positive width and height and a rectangle inside the image. |
| `MapView.ClampedCropAccepted` | src/nodemanager/gui/MapImage.java:192-210 | After the clamp, `getSubimage` accepts the crop exactly when its width and height are positive. |
| `MapView.AfterClick` | src/nodemanager/gui/MapImage.java:162-213 | The mode steps ADD→NONE, MOVE→NONE, RESCALE_UL→RESCALE_LR and RESCALE_LR→NONE. Any other mode is unchanged. |
| `MapView.CropTakesTwoClicks` | src/nodemanager/gui/MapImage.java:174-181 | Two clicks take every interactive mode back to NONE. One click does so unless the mode is RESCALE_UL. |
| `MapView.MapImage.constructor` | src/nodemanager/gui/MapImage.java:36-48 | A new image panel has no image and a zero clip. |
| `MapView.MapImage.Pan` | src/nodemanager/gui/MapImage.java:93-125 | The clip becomes `Panned` of the old clip. |
| `MapView.MapImage.Resize` | src/nodemanager/gui/MapImage.java:127-132 | The clip becomes `Resized` of the old clip. |
| `MapView.MapImage.ResizeWithinImage` | src/nodemanager/gui/MapImage.java:127-132 | The clip becomes `ResizedWithin` of the old clip, so it lies inside the image. |
| `MapView.MapImage.SetImage` | src/nodemanager/gui/MapImage.java:134-142 | Records the new image size and resets the clip to `(0, 0, min(view, image))`, which lies inside the image. |
| `MapView.MapImage.ClampCrop` | src/nodemanager/gui/MapImage.java:192-203 | The array becomes `ClampedCrop` of its old contents. |
| `MapView.MapImage.MouseClicked` | src/nodemanager/gui/MapImage.java:162-213 | The mode follows `AfterClick`. RESCALE_UL records node -1's position. RESCALE_LR records the crop size, clamps it, and shows the crop when its width and height are positive. Otherwise the image and clip are unchanged. The crop corner changes only in RESCALE_UL and the crop size only in RESCALE_LR. An image stays loaded. |

## Findings

| source | as written | input that shows it | evidently intended | confidence | as-written member | corrected member |
|---|---|---|---|---|---|---|
| src/nodemanager/gui/MapImage.java:127-129 | `resize` sets `clipW`/`clipH` to the view size but never moves `clipX`/`clipY`, so the clip can reach past the image | A 1000×1000 image in a 500×500 view is panned down to `clipY = 500`. The view then grows to 800×800: `clipY + clipH = 1300 > 1000`, and `paintComponent`'s `getSubimage` rejects the rectangle | The clip stays inside the image, as `pan` ensures | medium, not executed | `MapView.ResizeCanLeaveImage` (about `MapView.Resized`, which `MapImage.Resize` follows) | `MapView.ResizedWithin` (`MapImage.ResizeWithinImage`, which `SetImage` uses) |

`SetImage` first puts the clip at (0, 0). There the corrected resize and the
source's resize give the same clip, so `SetImage` still states exactly what
the source does.

## Notes on the model

- The manifest's writer puts `", "` between key and value, but the reader
  splits on `","`. Every value therefore reads back with a leading space, as
  `WriteThenRead` states. A value that contains a comma is cut at that comma.
- `ConnectionAddedEvent` touches only node `id1`'s entry, although
  connections are meant to be symmetric. Whether `Node.removeAdj` or
  `Node.addAdjId` also update `id2`'s side cannot be seen in this code, so the
  model follows the code and claims nothing about symmetry.
- `NL` comes from `AbstractCsvFile`, which is not part of this model. It is
  taken to be `"\n"`. `ReadLinesJoin` holds for `"\r"` and `"\r\n"` as well.

## Left out

- `WayfindingManifest.populate`, `getFileFor` and the download inside `importManifest` are left out. They are Google Drive uploads and downloads on a background thread. `ImportManifest` takes the download as a function from id to lines.
- `Manifest.WayfindingManifest.ReadStream` takes the stream as its complete list of lines. It does not model an `IOException`, `br.ready()` turning false early, or the console output for a failed line.
- `Manifest.WayfindingManifest.ContentsToWrite` does not fix the HashMap iteration order. A ghost listing stands for it.
- `FileType.getTitle` is not part of this model. `ContainsUrlFor` takes the title string.
- `DriveIOOp`, `EditCanvas`, `ExportMenu` and `ImportBody` are left out. They are thread plumbing, Swing layout, file choosers, and calls into parsers and exporters that are not part of this model.
- From `MapImage`, these are left out: painting and image I/O (`paintComponent`, `saveImage`, `createNewImageFile`), the floating-point zoom in `mouseWheelMoved`, icon placement in `mouseMoved`, the `Scale` transforms and `aspectRatio`, and the relocation of child components in `pan`.
- `MapView.MapImage.MouseClicked` models only the mode change for ADD and MOVE. Creating a node at the click and repositioning the selected node go through the floating-point `Scale`, which is not part of this model.
- `MapView.MapImage.Pan` and `MapView.MapImage.Resize` require an image. Before the first `setImage`, `buff` is null and the Java code throws; that case is not modelled.
- `MapView.MapImage.MouseClicked` requires an image when the mode is RESCALE_LR. Without one, `buff` is null and the Java code throws a NullPointerException at `getWidth`; that case is not modelled.
- `MapView.CropAccepted` encodes the bounds and size conditions of `BufferedImage.getSubimage`; after the clamp only the size condition can fail. A rejected crop leaves the image as it was, and by then the mode and the crop size have already been updated.
- Java's 32-bit `int` wrap-around is not modelled. The callers pan by ±5, and the clip values are bounded by the image size.
- `Node`, `NodeIcon`, `Session` and the event classes are not part of this model and are modelled abstractly, with these assumptions:
  - `Node.removeAdj`/`addAdjId` act as set removal and insertion.
  - `Node.addLabel`/`removeLabel` act as set insertion and removal, and report whether the set changed.
  - `NodeIcon.resetPos` restores the icon's import position.
  - `Session.logAction` appends to the log.
  - `Session.selectNode(Node.get(-1))` selects node -1 in this pane.
- `Events.ConnectionAddedEvent.Undo` and `Events.ConnectionAddedEvent.Redo` require node `id1` to be in the table. What `Node.get` does for a missing id is not part of this model.
- A cancelled label dialog, which returns `null`, is not modelled.
- Message dialogs are not modelled, and neither is showing the node description or drawing its links in `selectNode`.
- The edit-event log with redo truncation, the node and connection CSV files, and the coordinate scale are not part of this model. Their code lives in `NodeParser`, `Node`, `Scale`, `EditEvent` and `Session`.
