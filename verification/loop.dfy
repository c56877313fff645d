/** The rename loop as the window runs it: a walk over the list with a
    position and a separate counter of the scenes renamed so far, shown to
    do what the recursive definition of a pass says. */
module RenameLoop {
  import opened AssetStore
  import opened SceneRenamer

  /** A pass from position `index` on passes over an unmarked row there. */
  lemma SkipStep(h: Host, nm: Naming, temp: bool, es: seq<SceneListElement>, index: nat, done: nat, ed: Editor,
                 whole: (seq<SceneListElement>, Editor), out: seq<SceneListElement>)
    requires index < |es| && !es[index].rename
    requires whole == (out + Pass(h, nm, temp, es[index..], done, ed).0, Pass(h, nm, temp, es[index..], done, ed).1)
    ensures whole ==
      ((out + [es[index]]) + Pass(h, nm, temp, es[index + 1..], done, ed).0, Pass(h, nm, temp, es[index + 1..], done, ed).1)
  {
    assert es[index..][0] == es[index] && es[index..][1..] == es[index + 1..];
    var rest := Pass(h, nm, temp, es[index + 1..], done, ed);
    assert out + ([es[index]] + rest.0) == (out + [es[index]]) + rest.0;
  }

  /** A pass from position `index` on renames a marked row there with the
      next index and carries on from the editor that call left. */
  lemma TakeStep(h: Host, nm: Naming, temp: bool, es: seq<SceneListElement>, index: nat, done: nat, ed: Editor,
                 whole: (seq<SceneListElement>, Editor), out: seq<SceneListElement>, step: (SceneListElement, Editor))
    requires index < |es| && es[index].rename
    requires step == RenameScene(h, nm, es[index], done + 1, temp, ed)
    requires whole == (out + Pass(h, nm, temp, es[index..], done, ed).0, Pass(h, nm, temp, es[index..], done, ed).1)
    ensures whole ==
      ((out + [step.0]) + Pass(h, nm, temp, es[index + 1..], done + 1, step.1).0,
       Pass(h, nm, temp, es[index + 1..], done + 1, step.1).1)
  {
    assert es[index..][0] == es[index] && es[index..][1..] == es[index + 1..];
    var rest := Pass(h, nm, temp, es[index + 1..], done + 1, step.1);
    assert out + ([step.0] + rest.0) == (out + [step.0]) + rest.0;
  }

  /** The marked rows before `index + 1`. */
  lemma CountStep(es: seq<SceneListElement>, index: nat)
    requires index < |es|
    ensures Flagged(es[..index + 1]) == Flagged(es[..index]) + if es[index].rename then 1 else 0
  {
    assert es[..index] + [es[index]] == es[..index + 1];
    FlaggedAppend(es[..index], [es[index]]);
    assert [es[index]][1..] == [];
  }

  /** The loop of RenameScenes: `index` walks the list, `sceneIndex` counts
      the marked rows met so far and is raised before each call, so the k-th
      marked row is renamed with k. */
  method RunPass(h: Host, nm: Naming, temp: bool, es: seq<SceneListElement>, ed: Editor)
    returns (out: seq<SceneListElement>, ed': Editor)
    ensures (out, ed') == Pass(h, nm, temp, es, 0, ed)
  {
    ghost var whole := Pass(h, nm, temp, es, 0, ed);
    out, ed' := [], ed;
    var index, sceneIndex := 0, 0;
    assert es[index..] == es;
    assert out + whole.0 == whole.0;
    while index < |es|
      invariant index <= |es|
      invariant sceneIndex == Flagged(es[..index])
      invariant whole ==
        (out + Pass(h, nm, temp, es[index..], sceneIndex, ed').0, Pass(h, nm, temp, es[index..], sceneIndex, ed').1)
    {
      var scene := es[index];
      CountStep(es, index);
      if !scene.rename {
        SkipStep(h, nm, temp, es, index, sceneIndex, ed', whole, out);
        out := out + [scene];
        index := index + 1;
        continue;
      }
      var step := RenameScene(h, nm, scene, sceneIndex + 1, temp, ed');
      TakeStep(h, nm, temp, es, index, sceneIndex, ed', whole, out, step);
      sceneIndex := sceneIndex + 1;
      out, ed' := out + [step.0], step.1;
      index := index + 1;
    }
    assert es[index..] == [];
    assert out + [] == out;
  }

  /** RenameScenes as the window runs it: refresh, the loop, save, and the
      second call without the prefix after the temporary pass. */
  method RunRenameScenes(h: Host, nm: Naming, es: seq<SceneListElement>, temp: bool, ed: Editor)
    returns (out: seq<SceneListElement>, ed': Editor)
    ensures (out, ed') == RenameScenes(h, nm, es, temp, ed)
    decreases if temp then 1 else 0
  {
    out, ed' := RunPass(h, nm, temp, es, ed.(trace := ed.trace + [Refresh]));
    ed' := ed'.(trace := ed'.trace + [SaveAssets]);
    if temp {
      out, ed' := RunRenameScenes(h, nm, out, false, ed');
    }
  }
}
