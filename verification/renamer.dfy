/** The scene renamer: the list of build-settings scenes, the naming of a
    scene from its position among the scenes marked for renaming, and the
    two-pass rename through the asset store. */
module SceneRenamer {
  import opened NumberFormat
  import opened AssetStore

  /** Put in front of every name of the first, temporary, pass. */
  const TempPrefix: string := "TEMP_SCENERENAMER_"

  /** One row of the window's list. `assetName` is the name of the loaded
      scene asset. */
  datatype SceneListElement = SceneListElement(
    rename: bool,
    scenePath: string,
    assetName: string,
    enabledInBuildSettings: bool)

  /** One entry of the build settings' scene list. */
  datatype BuildScene = BuildScene(path: string, enabled: bool)

  /** The base name and the sanitised suffix format typed into the window. */
  datatype Naming = Naming(sceneName: string, sceneFormat: FormatString)

  /** What the renamer asks of the asset store, in order. A `Rename` event
      stands for one RenameScene call: the GUID lookup, the RenameAsset
      request for `newName` with its reply `error` (logged when not empty),
      and on success the path the GUID then resolves to. */
  datatype Event =
    | Refresh
    | Rename(path: string, newName: string, error: string, resolvedPath: string)
    | SaveAssets

  /** The state the renamer threads through: the store and the calls made. */
  datatype Editor = Editor(store: Store, trace: seq<Event>)

  /** The list the window starts from: one row per build-settings scene,
      marked for renaming, with the scene's path and enabled flag. */
  function Init(scenes: seq<BuildScene>, s: Store): (r: seq<SceneListElement>)
    ensures |r| == |scenes|
    ensures forall i :: 0 <= i < |r| ==> r[i].rename && r[i].scenePath == scenes[i].path
    ensures forall i :: 0 <= i < |r| ==> r[i].enabledInBuildSettings == scenes[i].enabled
    ensures forall i :: 0 <= i < |r| ==> r[i].assetName == LoadAssetName(s, scenes[i].path)
  {
    seq(|scenes|, i requires 0 <= i < |scenes| =>
      SceneListElement(true, scenes[i].path, LoadAssetName(s, scenes[i].path), scenes[i].enabled))
  }

  /** The list written back to the build settings, in list order. */
  function ReorderScenes(scenes: seq<SceneListElement>): (r: seq<BuildScene>)
    ensures |r| == |scenes|
    ensures forall i :: 0 <= i < |r| ==>
      r[i].path == scenes[i].scenePath && r[i].enabled == scenes[i].enabledInBuildSettings
  {
    seq(|scenes|, i requires 0 <= i < |scenes| =>
      BuildScene(scenes[i].scenePath, scenes[i].enabledInBuildSettings))
  }

  /** The name for the scene numbered `index`, with the temporary prefix in
      the first pass. */
  function GetNewName(nm: Naming, index: nat, temp: bool): string
  {
    (if temp then TempPrefix else "") + nm.sceneName + FormatIndex(index, nm.sceneFormat)
  }

  /** The number of rows marked for renaming. */
  function Flagged(es: seq<SceneListElement>): (k: nat)
    ensures k <= |es|
  {
    if es == [] then 0 else (if es[0].rename then 1 else 0) + Flagged(es[1..])
  }

  /** Rows marked alike are counted alike. */
  lemma {:induction false} FlaggedSameMarks(a: seq<SceneListElement>, b: seq<SceneListElement>)
    requires |a| == |b|
    requires forall i :: 0 <= i < |a| ==> a[i].rename == b[i].rename
    ensures Flagged(a) == Flagged(b)
    decreases |a|
  {
    if a != [] {
      FlaggedSameMarks(a[1..], b[1..]);
    }
  }

  lemma {:induction false} FlaggedAppend(a: seq<SceneListElement>, b: seq<SceneListElement>)
    ensures Flagged(a + b) == Flagged(a) + Flagged(b)
    decreases |a|
  {
    if a == [] {
      assert a + b == b;
    } else {
      assert (a + b)[1..] == a[1..] + b;
      FlaggedAppend(a[1..], b);
    }
  }

  /** The number of marked rows before row `i`: a marked row `i` is the
      `Rank(es, i) + 1`-th marked row, so it gets an index in 1..Flagged(es). */
  function Rank(es: seq<SceneListElement>, i: nat): (k: nat)
    requires i <= |es|
    ensures k <= Flagged(es)
    ensures i < |es| && es[i].rename ==> k < Flagged(es)
  {
    assert es == es[..i] + es[i..];
    FlaggedAppend(es[..i], es[i..]);
    assert i < |es| ==> es[i..][0] == es[i];
    Flagged(es[..i])
  }

  /** How one RenameScene call left its row: untouched after an error, and
      after success carrying the new name and the re-resolved path. */
  predicate StepOutcome(e: SceneListElement, ev: Event, e': SceneListElement)
    requires ev.Rename?
  {
    if ev.error != "" then e' == e
    else e' == e.(assetName := ev.newName, scenePath := ev.resolvedPath)
  }

  /** RenameScene: renames the row's asset to the name for `index`. The GUID
      is taken before the rename, and the row's path is re-resolved from it
      afterwards. Every call appends exactly one Rename event. */
  function RenameScene(h: Host, nm: Naming, e: SceneListElement, index: nat, temp: bool, ed: Editor)
    : (SceneListElement, Editor)
  {
    var newName := GetNewName(nm, index, temp);
    var guid := PathToGuid(ed.store, e.scenePath);
    var reply := RenameAsset(h, ed.store, e.scenePath, newName);
    if reply.1 != "" then
      (e, Editor(reply.0, ed.trace + [Rename(e.scenePath, newName, reply.1, "")]))
    else
      var path := GuidToPath(reply.0, guid);
      (e.(assetName := newName, scenePath := path),
       Editor(reply.0, ed.trace + [Rename(e.scenePath, newName, "", path)]))
  }

  /** One RenameScene call: it appends one Rename event asking for the name
      for `index` from the row's path, with the host's reply as its error; a
      failure leaves the row and the store as they were, and a success moves
      the row to the path its GUID then resolves to. */
  lemma {:induction false} RenameSceneCall(h: Host, nm: Naming, e: SceneListElement, index: nat, temp: bool, ed: Editor,
                        r: (SceneListElement, Editor))
    requires r == RenameScene(h, nm, e, index, temp, ed)
    ensures |r.1.trace| == |ed.trace| + 1 && r.1.trace[..|ed.trace|] == ed.trace
    ensures r.1.trace[|ed.trace|].Rename?
    ensures r.1.trace[|ed.trace|].path == e.scenePath
    ensures r.1.trace[|ed.trace|].newName == GetNewName(nm, index, temp)
    ensures r.1.trace[|ed.trace|].error == h.renameError(ed.store, e.scenePath, GetNewName(nm, index, temp))
    ensures StepOutcome(e, r.1.trace[|ed.trace|], r.0)
    ensures r.1.trace[|ed.trace|].error != "" ==> r.1.store == ed.store
    ensures r.1.trace[|ed.trace|].error == "" && PathToGuid(ed.store, e.scenePath).Some? ==>
      r.1.trace[|ed.trace|].resolvedPath == h.movedPath(e.scenePath, GetNewName(nm, index, temp))
  {
  }

  /** One pass of the loop of RenameScenes over the rows `es`, when `done`
      marked rows have already been numbered: every marked row is renamed
      with the next index, every other row is skipped. */
  function Pass(h: Host, nm: Naming, temp: bool, es: seq<SceneListElement>, done: nat, ed: Editor)
    : (seq<SceneListElement>, Editor)
    decreases |es|
  {
    if es == [] then ([], ed)
    else if !es[0].rename then
      var rest := Pass(h, nm, temp, es[1..], done, ed);
      ([es[0]] + rest.0, rest.1)
    else
      var step := RenameScene(h, nm, es[0], done + 1, temp, ed);
      var rest := Pass(h, nm, temp, es[1..], done + 1, step.1);
      ([step.0] + rest.0, rest.1)
  }

  /** A pass keeps every row's marks and enabled flag, leaves the unmarked
      rows untouched, and appends one event per marked row. */
  lemma {:induction false} PassShape(h: Host, nm: Naming, temp: bool, es: seq<SceneListElement>, done: nat, ed: Editor,
                                     r: (seq<SceneListElement>, Editor))
    requires r == Pass(h, nm, temp, es, done, ed)
    ensures |r.0| == |es|
    ensures forall i :: 0 <= i < |es| ==>
      r.0[i].rename == es[i].rename && r.0[i].enabledInBuildSettings == es[i].enabledInBuildSettings
    ensures forall i :: 0 <= i < |es| && !es[i].rename ==> r.0[i] == es[i]
    ensures |r.1.trace| == |ed.trace| + Flagged(es) && r.1.trace[..|ed.trace|] == ed.trace
    decreases |es|
  {
    if es != [] {
      if !es[0].rename {
        var rest := Pass(h, nm, temp, es[1..], done, ed);
        PassShape(h, nm, temp, es[1..], done, ed, rest);
        assert forall i :: 1 <= i < |es| ==> r.0[i] == rest.0[i - 1] && es[i] == es[1..][i - 1];
      } else {
        var step := RenameScene(h, nm, es[0], done + 1, temp, ed);
        RenameSceneCall(h, nm, es[0], done + 1, temp, ed, step);
        var rest := Pass(h, nm, temp, es[1..], done + 1, step.1);
        PassShape(h, nm, temp, es[1..], done + 1, step.1, rest);
        assert forall i :: 1 <= i < |es| ==> r.0[i] == rest.0[i - 1] && es[i] == es[1..][i - 1];
        assert rest.1.trace[..|ed.trace|] == ed.trace by {
          assert rest.1.trace[..|ed.trace|] == rest.1.trace[..|step.1.trace|][..|ed.trace|];
        }
      }
    }
  }

  /** The body of RenameScenes before its recursive call: a refresh, one
      pass, a save. */
  function RefreshPassSave(h: Host, nm: Naming, es: seq<SceneListElement>, temp: bool, ed: Editor)
    : (seq<SceneListElement>, Editor)
  {
    var pass := Pass(h, nm, temp, es, 0, ed.(trace := ed.trace + [Refresh]));
    (pass.0, pass.1.(trace := pass.1.trace + [SaveAssets]))
  }

  /** RenameScenes: a refresh, one pass, a save; when `temp` holds the whole
      is repeated once without the prefix. */
  function RenameScenes(h: Host, nm: Naming, es: seq<SceneListElement>, temp: bool, ed: Editor)
    : (seq<SceneListElement>, Editor)
    decreases if temp then 1 else 0
  {
    var once := RefreshPassSave(h, nm, es, temp, ed);
    if temp then RenameScenes(h, nm, once.0, false, once.1) else once
  }

  /** RenameScenes keeps every row's marks and enabled flag, leaves the
      unmarked rows untouched, and grows the trace by K + 2 events per pass
      for K marked rows. */
  lemma {:induction false} RenameScenesShape(h: Host, nm: Naming, es: seq<SceneListElement>, temp: bool, ed: Editor,
                          r: (seq<SceneListElement>, Editor))
    requires r == RenameScenes(h, nm, es, temp, ed)
    ensures |r.0| == |es|
    ensures forall i :: 0 <= i < |es| ==>
      r.0[i].rename == es[i].rename && r.0[i].enabledInBuildSettings == es[i].enabledInBuildSettings
    ensures forall i :: 0 <= i < |es| && !es[i].rename ==> r.0[i] == es[i]
    ensures |r.1.trace| == |ed.trace| + (if temp then 2 else 1) * (Flagged(es) + 2)
    ensures r.1.trace[..|ed.trace|] == ed.trace
    decreases if temp then 1 else 0
  {
    var ed0 := ed.(trace := ed.trace + [Refresh]);
    var pass := Pass(h, nm, temp, es, 0, ed0);
    PassShape(h, nm, temp, es, 0, ed0, pass);
    var saved := pass.1.(trace := pass.1.trace + [SaveAssets]);
    assert saved.trace[..|ed.trace|] == ed.trace by {
      assert saved.trace[..|ed.trace|] == pass.1.trace[..|ed0.trace|][..|ed.trace|];
    }
    if temp {
      FlaggedSameMarks(es, pass.0);
      RenameScenesShape(h, nm, pass.0, false, saved, r);
      assert r.1.trace[..|ed.trace|] == r.1.trace[..|saved.trace|][..|ed.trace|];
    }
  }

  /** The Rename button: both passes, then the list is written back. */
  function RenameAndWriteBack(h: Host, nm: Naming, es: seq<SceneListElement>, ed: Editor)
    : (r: (seq<SceneListElement>, Editor, seq<BuildScene>))
    ensures |r.0| == |es| == |r.2|
    ensures forall i :: 0 <= i < |es| ==>
      r.2[i].path == r.0[i].scenePath && r.2[i].enabled == es[i].enabledInBuildSettings
  {
    var r := RenameScenes(h, nm, es, true, ed);
    RenameScenesShape(h, nm, es, true, ed, r);
    (r.0, r.1, ReorderScenes(r.0))
  }
}
