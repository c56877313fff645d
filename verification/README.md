# Scene renamer, modelled in Dafny

This project models the core of `SceneRenamer`, a Unity editor window.
The window renames every scene marked in the build settings to a base name
plus a numeric suffix: `Scene001`, `Scene002`, and so on. The rename runs in
two passes:

- **Temporary pass.** Every marked scene is renamed to
  `TEMP_SCENERENAMER_` + its final name. This is meant to free the final
  names, so that a scene can take a name another marked scene held before
  the batch. The model makes no claim about collisions. A final name can
  still be taken by an unmarked scene, by another asset, or by a scene whose
  temporary rename failed.
- **Final pass.** Every marked scene is renamed to its final name, with the
  same numbering.

After the passes, the list is written back to the build settings.

The model has five modules:

- `NumberFormat` (`format.dfy`):
  - the suffix sanitiser, which keeps only the `0` and `#` placeholders;
  - the .NET custom numeric format restricted to those two placeholders.
    The leftmost `0` fixes the minimum width. An index of 0 under a format
    without `0` renders as the empty string. The empty format renders plain
    decimal.
- `AssetStore` (`store.dfy`): the editor's asset database.
  - A scene asset is identified by a GUID that survives a rename. The model
    uses the asset's position in the store as its GUID.
  - Path and GUID lookups.
  - `RenameAsset`, whose outcome is decided by a `Host`. The `Host` holds two
    functions the renamer cannot see: the error message the database replies
    with (empty on success), and the path a renamed file moves to.
- `SceneRenamer` (`renamer.dfy`):
  - the `SceneListElement` row and the build-settings list;
  - `Init` and `ReorderScenes`;
  - `GetNewName` and `RenameScene`;
  - one pass of the rename loop (`Pass`) and the two-pass `RenameScenes`.

  The renamer threads an `Editor` (the store plus the trace of store calls
  made so far). Each `RenameScene` call appends one `Rename` event. The event
  records the path asked for, the new name, the database's reply (logged when
  not empty) and the path the GUID resolves to afterwards.
- `RenamerProofs` (`proofs.dfy`): how the passes number the marked rows,
  the exact shape of the call trace, and the end result of a run whose
  final renames all succeeded.
- `RenameLoop` (`loop.dfy`): the loop of `RenameScenes` as written, with an
  index and a separate counter. It is proved to compute exactly what the
  recursive `Pass` and `RenameScenes` define.

`RenameScenes` refreshes the asset database before its loop and saves it
after (`SceneRenamer.cs:132`, `139`), and then calls itself for the final
pass (`SceneRenamer.cs:141-142`). A two-pass rename therefore refreshes and
saves twice: Refresh, the temporary renames, SaveAssets, Refresh, the final
renames, SaveAssets. `RenamerProofs.TwoPasses` states this order.

## Model

| member | source | states |
|---|---|---|
| NumberFormat.CleanFormatString | SceneRenamer.cs:113-116 | the sanitised suffix contains only `0` and `#` and is no longer than the input |
| NumberFormat.CleanCounts | SceneRenamer.cs:113-116 | the sanitised suffix holds each `0` and `#` exactly as often as the input does, and no other character |
| NumberFormat.CleanIsSubsequence | SceneRenamer.cs:113-116 | the sanitised suffix is obtained from the input by deleting characters, so the kept placeholders stay in their original order |
| NumberFormat.CleanConcat | SceneRenamer.cs:113-116 | sanitising works character by character: the result for `a + b` is the result for `a` followed by the result for `b` |
| NumberFormat.CleanFixedPoint | SceneRenamer.cs:113-116 | the sanitiser returns a string unchanged if and only if it is already made of `0` and `#` only |
| NumberFormat.CleanIdempotent | SceneRenamer.cs:99 | sanitising the suffix field again on every redraw changes nothing after the first time |
| NumberFormat.DecimalDigits | SceneRenamer.cs:169 | the plain rendering of an index (empty format) is a non-empty digit string without leading zeros that denotes the index, one digit long exactly for indices below 10 |
| NumberFormat.MinWidthLeftmostZero | SceneRenamer.cs:169 | the forced width of a format is zero if and only if it has no `0`; otherwise it is the number of positions from its leftmost `0` to its end |
| NumberFormat.FormatIndexValue | SceneRenamer.cs:169 | the rendered suffix is a string of decimal digits whose value is the index |
| NumberFormat.FormatIndexShape | SceneRenamer.cs:169 | the suffix is at least as wide as the format forces; a positive index is its plain digits left-padded with `0` to that width; index 0 is that many zeros, so it is empty under a format of `#` only; the empty format gives plain digits |
| NumberFormat.FormatIndexInjective | SceneRenamer.cs:169 | two indices render to the same suffix under a format if and only if they are equal |
| RenamerProofs.NewNameInjective | SceneRenamer.cs:167-170 | in either pass, two indices give the same new name if and only if they are equal |
| AssetStore.PathToGuid | SceneRenamer.cs:154 | a GUID found for a path belongs to an asset living at that path, and resolves back to that path; no GUID is found exactly when no asset lives there |
| AssetStore.RenameAsset | SceneRenamer.cs:155 | the reply is the host's; a non-empty reply leaves the store unchanged; on success only the asset at the path changes, taking the new name and the host's new path, so the GUID taken before the rename resolves to the new path; no asset appears or disappears |
| SceneRenamer.RenameSceneCall | SceneRenamer.cs:151-165 | one call asks the store to rename the row's current path to the name for its index; on error the row and the store stay as they were; on success the row takes the new name and the path its GUID, taken before the rename, resolves to afterwards; the call appends exactly one event |
| SceneRenamer.PassShape | SceneRenamer.cs:133-138 | one pass keeps the list's length, every row's mark and enabled flag, leaves unmarked rows exactly as they were, and makes exactly one store call per marked row, after the earlier calls |
| RenamerProofs.PassCalls | SceneRenamer.cs:133-138 | in one pass the k-th marked row, in list order, is renamed with index k by the k-th call of the pass, and ends as that call left it, whatever the earlier calls replied |
| RenamerProofs.PassOnlyRenames | SceneRenamer.cs:136-137 | a pass makes only rename calls, one per marked row and nothing else |
| RenamerProofs.RankIncreasing | SceneRenamer.cs:133-137 | a marked row gets a smaller index than every marked row after it |
| RenamerProofs.RankOnto | SceneRenamer.cs:133-137 | every index from 1 to the number of marked rows is given to some marked row |
| RenamerProofs.OnePass | SceneRenamer.cs:132-139 | a refresh, a pass and a save: one Refresh, then exactly one rename per marked row, numbered 1, 2, … in list order, then one SaveAssets; earlier events are kept |
| RenamerProofs.SinglePass | SceneRenamer.cs:130-143 | `RenameScenes(false)` is a single bracketed pass with indices 1..K over the K marked rows, using the final names |
| RenamerProofs.TwoPasses | SceneRenamer.cs:130-143 | `RenameScenes(true)` is two bracketed passes, Refresh, K renames and SaveAssets each, in that order; the first uses temporary names, the second final names, with the same index for each row, and each temporary name is `TEMP_SCENERENAMER_` in front of the row's final name |
| RenamerProofs.TwoPassRows | SceneRenamer.cs:137 | each marked row's temporary call and final call use the same index; the final call starts from wherever the temporary call left the row; the row ends as the last successful call left it, or unchanged when both failed |
| SceneRenamer.RenameScenesShape | SceneRenamer.cs:130-143 | the whole rename keeps every row's mark and enabled flag and leaves unmarked rows untouched; the trace keeps its earlier events and grows by K + 2 events per pass for K marked rows |
| RenamerProofs.AllSucceed | SceneRenamer.cs:130-143 | in a run whose final-pass renames all succeeded (temporary renames may have failed), the k-th marked row ends up named base name plus the suffix for k, and no two marked rows share a name |
| RenamerProofs.RenameTwiceSameNames | SceneRenamer.cs:104-107 | running the rename again on the list it produced, with the same marks and no re-read of the build settings, leaves every row's name unchanged when no rename of either run failed (the window's own second press starts from a re-read list, which `RenamerProofs.RenameFreshList` covers) |
| RenameLoop.RunPass | SceneRenamer.cs:133-138 | the loop, with its `index` and its `++sceneIndex` counter, computes exactly the recursive pass: the same rows and the same store and calls |
| RenameLoop.RunRenameScenes | SceneRenamer.cs:130-143 | the method with its recursive call for the final pass computes exactly `RenameScenes` |
| SceneRenamer.Init | SceneRenamer.cs:44-53 | the fresh list has one row per build-settings scene, in order, each marked for renaming, with the scene's path and enabled flag and the name of the asset at that path |
| SceneRenamer.ReorderScenes | SceneRenamer.cs:121-124 | the written-back build settings have one entry per row, in list order, with the row's path and enabled flag |
| RenamerProofs.InitNumbering | SceneRenamer.cs:48 | every row of a fresh list is marked, so row i is the (i+1)-th marked row |
| RenamerProofs.InitWriteBack | SceneRenamer.cs:123 | writing back a fresh list reproduces the build settings it was read from |
| SceneRenamer.RenameAndWriteBack | SceneRenamer.cs:104-108 | the Rename button writes back one build-settings entry per row, with each row's path after the rename and its original enabled flag |
| RenamerProofs.RenameFreshList | SceneRenamer.cs:104-108 | on a fresh list, in a run where no rename failed, scene i of the build settings is named base name plus the suffix for i+1, and the written-back settings keep its path and enabled flag |

## Left out

- The window itself is not modelled, because it is drawing and input handling, not renaming logic. This covers `ShowWindow`, `OnGUI` layout, scrolling, the reorderable list's dragging and row drawing, and `OnDestroy`. The list order the user produces by dragging is simply the input sequence.
- `sceneSuffixIndex` is not modelled, because it is only reset by the drawing code and never affects a rename.
- The `sceneListChanged` subscription is not modelled, because it is an editor event. It re-runs `Init` after `ReorderScenes` writes the settings back. `RenamerProofs.InitWriteBack` and `RenamerProofs.RenameFreshList` describe what such a re-read sees.
- Unity's `AssetDatabase` is modelled only by what the renamer observes: lookups, `RenameAsset`'s reply and the resulting paths. Why the database refuses a rename (name collisions, invalid characters, locked files) is left to the `Host`. No claim is made that every rename succeeds.
- `AssetDatabase.Refresh` and `SaveAssets` are modelled as events in the trace only. They do not change the modelled store, because their effect on disk is not observable through the calls the renamer makes.
- `Debug.LogError` is not a separate action. A logged error is a `Rename` event with a non-empty `error`.
- `SceneRenamer.RenameSceneCall`: a row whose scene asset failed to load is modelled with an empty `assetName`, not a null reference. In the source, a successful rename of such a row would throw at `SceneRenamer.cs:162`. The exception would leave `RenameScenes` and the button handler entirely, so SaveAssets (`SceneRenamer.cs:139`), the final pass (`SceneRenamer.cs:141-142`) and `ReorderScenes` (`SceneRenamer.cs:107`) would all be skipped. In practice drawing such a row already throws at `SceneRenamer.cs:200` (reached from `SceneRenamer.cs:86`), before the button at `SceneRenamer.cs:104` is reached. The model carries on as it does for every other row.
- `SceneRenamer.Init`: each row holds a copy of its scene's name, not a reference to the loaded `SceneAsset`. In the source, two build-settings entries with the same path share one loaded object (`SceneRenamer.cs:14`, `50`), so the assignment at `SceneRenamer.cs:162` renames it for both rows. In the model, the second row keeps its old name.
- The regular expression `[^0#]` is modelled as a character filter with the same result. No general regular-expression engine is modelled.
- `string.Format` is modelled only for the `0` and `#` placeholders. The suffix format always passes through `CleanFormatString` (its initial value `000` included), so no other format character can reach `GetNewName`. Culture-specific output does not arise for these placeholders.
- The scene index is an unbounded `nat`, so C#'s 32-bit `int` is not modelled. It never exceeds the number of build-settings scenes, which is far below 2^31.
- `AssetStore.PathToGuid`: GUIDs are positions in the store, not 128-bit strings. The renamer only compares and resolves GUIDs, so their representation does not matter.
