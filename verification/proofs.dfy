/** What the rename protocol of the scene renamer guarantees: the numbering of
    the marked rows, the order of the store calls, the isolation of a failed
    rename, the two passes, and the names a fully successful run leaves. */
module RenamerProofs {
  import opened NumberFormat
  import opened AssetStore
  import opened SceneRenamer

  // ------------------------------------------------------------- numbering

  /** Counting the marked rows before `i` from the front of the list. */
  lemma {:induction false} RankCons(es: seq<SceneListElement>, i: nat)
    requires 1 <= i <= |es|
    ensures Rank(es, i) == (if es[0].rename then 1 else 0) + Rank(es[1..], i - 1)
  {
    assert es[..i][1..] == es[1..][..i - 1];
  }

  /** Row `i + 1` comes after row `i` in the numbering. */
  lemma {:induction false} RankStep(es: seq<SceneListElement>, i: nat)
    requires i < |es|
    ensures Rank(es, i + 1) == Rank(es, i) + (if es[i].rename then 1 else 0)
  {
    assert es[..i + 1] == es[..i] + [es[i]];
    FlaggedAppend(es[..i], [es[i]]);
  }

  /** Marked rows are numbered in list order, so no two share an index. */
  lemma {:induction false} RankIncreasing(es: seq<SceneListElement>, i: nat, j: nat)
    requires i < j <= |es| && es[i].rename
    ensures Rank(es, i) < Rank(es, j)
    decreases j - i
  {
    RankStep(es, i);
    if i + 1 < j {
      RankMonotone(es, i + 1, j);
    }
  }

  lemma {:induction false} RankMonotone(es: seq<SceneListElement>, i: nat, j: nat)
    requires i <= j <= |es|
    ensures Rank(es, i) <= Rank(es, j)
    decreases j - i
  {
    if i < j {
      RankStep(es, i);
      RankMonotone(es, i + 1, j);
    }
  }

  /** Every index 1..Flagged(es) goes to some marked row. */
  lemma {:induction false} RankOnto(es: seq<SceneListElement>, k: nat)
    requires k < Flagged(es)
    ensures exists i :: 0 <= i < |es| && es[i].rename && Rank(es, i) == k
    decreases |es|
  {
    if es[0].rename && k == 0 {
      assert Rank(es, 0) == 0;
    } else {
      var k' := if es[0].rename then k - 1 else k;
      RankOnto(es[1..], k');
      var i' :| 0 <= i' < |es[1..]| && es[1..][i'].rename && Rank(es[1..], i') == k';
      RankCons(es, i' + 1);
    }
  }

  /** Lists marked alike number their rows alike. */
  lemma {:induction false} RankSameMarks(a: seq<SceneListElement>, b: seq<SceneListElement>, i: nat)
    requires |a| == |b| && i <= |a|
    requires forall j :: 0 <= j < |a| ==> a[j].rename == b[j].rename
    ensures Rank(a, i) == Rank(b, i)
  {
    FlaggedSameMarks(a[..i], b[..i]);
  }

  // ------------------------------------------------------------ names

  /** Distinct indices give distinct names, in either pass. */
  lemma {:induction false} NewNameInjective(nm: Naming, i: nat, j: nat, temp: bool)
    ensures GetNewName(nm, i, temp) == GetNewName(nm, j, temp) <==> i == j
  {
    var head := (if temp then TempPrefix else "") + nm.sceneName;
    assert GetNewName(nm, i, temp) == head + FormatIndex(i, nm.sceneFormat);
    assert GetNewName(nm, j, temp) == head + FormatIndex(j, nm.sceneFormat);
    if GetNewName(nm, i, temp) == GetNewName(nm, j, temp) {
      assert FormatIndex(i, nm.sceneFormat) == GetNewName(nm, i, temp)[|head|..];
      assert FormatIndex(j, nm.sceneFormat) == GetNewName(nm, j, temp)[|head|..];
      FormatIndexInjective(i, j, nm.sceneFormat);
    }
  }

  /** A temporary name is the final name for the same index behind the
      prefix, and the final name is the base name followed by the suffix. */
  lemma {:induction false} TempNameIsPrefixedFinalName(nm: Naming, k: nat)
    ensures GetNewName(nm, k, false) == nm.sceneName + FormatIndex(k, nm.sceneFormat)
    ensures GetNewName(nm, k, true) == TempPrefix + GetNewName(nm, k, false)
  {
  }

  // ------------------------------------------------------------ one pass

  /** The Rename event `ev` is the call RenameScene makes for row `e` with
      `index`, and `e'` is the row it leaves. */
  predicate RowCall(nm: Naming, temp: bool, index: nat, e: SceneListElement, ev: Event, e': SceneListElement) {
    && ev.Rename?
    && ev.path == e.scenePath
    && ev.newName == GetNewName(nm, index, temp)
    && StepOutcome(e, ev, e')
  }

  /** No rename call recorded in `t` from position `from` on failed. */
  predicate NoErrors(t: seq<Event>, from: nat) {
    forall j :: from <= j < |t| && t[j].Rename? ==> t[j].error == ""
  }

  /** Every event a pass appends is a Rename event. */
  lemma {:induction false} PassOnlyRenames(h: Host, nm: Naming, temp: bool, es: seq<SceneListElement>, done: nat, ed: Editor,
                                           r: (seq<SceneListElement>, Editor))
    requires r == Pass(h, nm, temp, es, done, ed)
    ensures forall j :: |ed.trace| <= j < |r.1.trace| ==>
      r.1.trace[j].Rename?
    decreases |es|
  {
    if es != [] {
      if !es[0].rename {
        PassOnlyRenames(h, nm, temp, es[1..], done, ed, Pass(h, nm, temp, es[1..], done, ed));
      } else {
        var step := RenameScene(h, nm, es[0], done + 1, temp, ed);
        RenameSceneCall(h, nm, es[0], done + 1, temp, ed, step);
        var ed1 := step.1;
        var rest := Pass(h, nm, temp, es[1..], done + 1, ed1);
        PassShape(h, nm, temp, es[1..], done + 1, ed1, rest);
        PassOnlyRenames(h, nm, temp, es[1..], done + 1, ed1, rest);
        assert rest.1.trace[..|ed1.trace|] == ed1.trace;
        assert rest.1.trace[|ed.trace|] == ed1.trace[|ed.trace|];
      }
    }
  }

  /** The marked rows of `es`, numbered from `done + 1`, match the events of
      `trace` from position `base` on, in order, and `out` holds the rows as
      those calls left them. */
  ghost predicate CallsMatch(nm: Naming, temp: bool, es: seq<SceneListElement>, done: nat, base: nat,
                             trace: seq<Event>, out: seq<SceneListElement>) {
    && |out| == |es|
    && base + Flagged(es) <= |trace|
    && forall i {:trigger out[i]} :: 0 <= i < |es| && es[i].rename ==>
         RowCall(nm, temp, done + Rank(es, i) + 1, es[i], trace[base + Rank(es, i)], out[i])
  }

  /** An unmarked head row is passed over without using an index or a call. */
  lemma {:induction false} CallsSkip(nm: Naming, temp: bool, es: seq<SceneListElement>, done: nat, base: nat,
                  trace: seq<Event>, rest: seq<SceneListElement>)
    requires es != [] && !es[0].rename
    requires CallsMatch(nm, temp, es[1..], done, base, trace, rest)
    ensures CallsMatch(nm, temp, es, done, base, trace, [es[0]] + rest)
  {
    var out := [es[0]] + rest;
    assert Flagged(es) == Flagged(es[1..]);
    forall i | 0 <= i < |es| && es[i].rename
      ensures RowCall(nm, temp, done + Rank(es, i) + 1, es[i], trace[base + Rank(es, i)], out[i])
    {
      RankCons(es, i);
      assert es[1..][i - 1] == es[i] && out[i] == rest[i - 1];
    }
  }

  /** A marked head row takes the next index and the next call. */
  lemma {:induction false} CallsTake(nm: Naming, temp: bool, es: seq<SceneListElement>, done: nat, base: nat,
                  trace: seq<Event>, e: SceneListElement, rest: seq<SceneListElement>)
    requires es != [] && es[0].rename
    requires base < |trace| && RowCall(nm, temp, done + 1, es[0], trace[base], e)
    requires CallsMatch(nm, temp, es[1..], done + 1, base + 1, trace, rest)
    ensures CallsMatch(nm, temp, es, done, base, trace, [e] + rest)
  {
    var out := [e] + rest;
    assert Flagged(es) == 1 + Flagged(es[1..]);
    forall i | 0 <= i < |es| && es[i].rename
      ensures RowCall(nm, temp, done + Rank(es, i) + 1, es[i], trace[base + Rank(es, i)], out[i])
    {
      var index, ev;
      if i == 0 {
        assert Rank(es, 0) == 0 && out[0] == e;
        index, ev := done + 1, trace[base];
      } else {
        RankCons(es, i);
        var k := Rank(es[1..], i - 1);
        assert es[1..][i - 1] == es[i] && out[i] == rest[i - 1];
        index, ev := done + 1 + k + 1, trace[base + 1 + k];
      }
      assert RowCall(nm, temp, index, es[i], ev, out[i]);
      assert ev == trace[base + Rank(es, i)];
      assert index == done + Rank(es, i) + 1;
      assert ev.newName == GetNewName(nm, done + Rank(es, i) + 1, temp);
    }
  }

  /** The calls of one pass: the k-th marked row, in list order, is renamed
      by the k-th event of the pass, asking for the name with index
      `done + k`, and is left as that call's reply says. */
  lemma {:induction false} PassCalls(h: Host, nm: Naming, temp: bool, es: seq<SceneListElement>, done: nat, ed: Editor,
                                     r: (seq<SceneListElement>, Editor))
    requires r == Pass(h, nm, temp, es, done, ed)
    ensures CallsMatch(nm, temp, es, done, |ed.trace|, r.1.trace, r.0)
    decreases |es|
  {
    if es == [] {
    } else if !es[0].rename {
      var rest := Pass(h, nm, temp, es[1..], done, ed);
      PassShape(h, nm, temp, es[1..], done, ed, rest);
      PassCalls(h, nm, temp, es[1..], done, ed, rest);
      CallsSkip(nm, temp, es, done, |ed.trace|, rest.1.trace, rest.0);
    } else {
      var step := RenameScene(h, nm, es[0], done + 1, temp, ed);
      RenameSceneCall(h, nm, es[0], done + 1, temp, ed, step);
      var rest := Pass(h, nm, temp, es[1..], done + 1, step.1);
      PassShape(h, nm, temp, es[1..], done + 1, step.1, rest);
      PassCalls(h, nm, temp, es[1..], done + 1, step.1, rest);
      assert rest.1.trace[..|step.1.trace|] == step.1.trace;
      assert rest.1.trace[|ed.trace|] == step.1.trace[|ed.trace|];
      CallsTake(nm, temp, es, done, |ed.trace|, rest.1.trace, step.0, rest.0);
    }
  }

  // ------------------------------------------------------------ RenameScenes

  /** From position `lo` on, `t` holds a Refresh, `k` Rename events and a
      SaveAssets. */
  ghost predicate Bracket(t: seq<Event>, lo: nat, k: nat) {
    && lo + k + 2 <= |t|
    && t[lo] == Refresh
    && t[lo + k + 1] == SaveAssets
    && forall j :: lo < j < lo + k + 1 ==> t[j].Rename?
  }

  /** A refresh, a pass and a save: the pass's events sit between one
      Refresh and one SaveAssets, and match the marked rows in order. */
  lemma {:induction false} OnePass(h: Host, nm: Naming, es: seq<SceneListElement>, temp: bool, ed: Editor,
                r: (seq<SceneListElement>, Editor))
    requires r == RefreshPassSave(h, nm, es, temp, ed)
    ensures |r.0| == |es|
    ensures forall i :: 0 <= i < |es| ==> r.0[i].rename == es[i].rename
    ensures |r.1.trace| == |ed.trace| + Flagged(es) + 2
    ensures r.1.trace[..|ed.trace|] == ed.trace
    ensures Bracket(r.1.trace, |ed.trace|, Flagged(es))
    ensures CallsMatch(nm, temp, es, 0, |ed.trace| + 1, r.1.trace, r.0)
  {
    OnePassCalls(h, nm, es, temp, ed, r);
    var ed0 := ed.(trace := ed.trace + [Refresh]);
    var p := Pass(h, nm, temp, es, 0, ed0);
    PassShape(h, nm, temp, es, 0, ed0, p);
    PassOnlyRenames(h, nm, temp, es, 0, ed0, p);
    assert p.1.trace[|ed.trace|] == ed0.trace[|ed.trace|] by {
      assert p.1.trace[..|ed0.trace|] == ed0.trace;
    }
  }

  /** The calls of a refresh, a pass and a save: the k-th marked row is
      renamed with index k by the event k places after the Refresh. */
  lemma {:induction false} OnePassCalls(h: Host, nm: Naming, es: seq<SceneListElement>, temp: bool, ed: Editor,
                r: (seq<SceneListElement>, Editor))
    requires r == RefreshPassSave(h, nm, es, temp, ed)
    ensures |r.0| == |es|
    ensures forall i :: 0 <= i < |es| ==> r.0[i].rename == es[i].rename
    ensures |r.1.trace| == |ed.trace| + Flagged(es) + 2
    ensures r.1.trace[..|ed.trace|] == ed.trace
    ensures CallsMatch(nm, temp, es, 0, |ed.trace| + 1, r.1.trace, r.0)
  {
    var ed0 := ed.(trace := ed.trace + [Refresh]);
    var p := Pass(h, nm, temp, es, 0, ed0);
    PassShape(h, nm, temp, es, 0, ed0, p);
    PassCalls(h, nm, temp, es, 0, ed0, p);
    CallsMatchExtend(nm, temp, es, 0, |ed0.trace|, p.1.trace, [SaveAssets], p.0);
    assert r.1.trace[..|ed.trace|] == ed.trace by {
      assert r.1.trace[..|ed.trace|] == p.1.trace[..|ed0.trace|][..|ed.trace|];
    }
  }

  /** RenameScenes(false): one pass bracketed by one Refresh and one
      SaveAssets, with names without the prefix, and no second pass. */
  lemma {:induction false} SinglePass(h: Host, nm: Naming, es: seq<SceneListElement>, ed: Editor, r: (seq<SceneListElement>, Editor))
    requires r == RenameScenes(h, nm, es, false, ed)
    ensures |r.1.trace| == |ed.trace| + Flagged(es) + 2
    ensures Bracket(r.1.trace, |ed.trace|, Flagged(es))
    ensures CallsMatch(nm, false, es, 0, |ed.trace| + 1, r.1.trace, r.0)
  {
    OnePass(h, nm, es, false, ed, r);
  }

  /** Later events do not disturb the match of earlier ones. */
  lemma {:induction false} CallsMatchExtend(nm: Naming, temp: bool, es: seq<SceneListElement>, done: nat, base: nat,
                         trace: seq<Event>, more: seq<Event>, out: seq<SceneListElement>)
    requires CallsMatch(nm, temp, es, done, base, trace, out)
    ensures CallsMatch(nm, temp, es, done, base, trace + more, out)
  {
  }

  /** How row `e` fares over both passes with index `index`: its temporary
      call `t` asks for the prefixed name from the row's path; its final call
      `f` asks for the plain name, from the path the temporary call left (the
      original path when it failed); the row ends with the last successful
      rename, or unchanged when both failed. */
  predicate TwoPassRow(nm: Naming, index: nat, e: SceneListElement, t: Event, f: Event, e': SceneListElement) {
    && t.Rename? && f.Rename?
    && t.path == e.scenePath
    && t.newName == GetNewName(nm, index, true)
    && f.newName == GetNewName(nm, index, false)
    && t.newName == TempPrefix + f.newName
    && f.path == (if t.error == "" then t.resolvedPath else e.scenePath)
    && e'.rename == e.rename && e'.enabledInBuildSettings == e.enabledInBuildSettings
    && if f.error == "" then e'.assetName == f.newName && e'.scenePath == f.resolvedPath
       else if t.error == "" then e'.assetName == t.newName && e'.scenePath == t.resolvedPath
       else e' == e
  }

  /** Every marked row of `es`, with its index, fares as TwoPassRow says,
      its temporary call counted from `base1` and its final call from
      `base2`. */
  ghost predicate BothPassesMatch(nm: Naming, es: seq<SceneListElement>, base1: nat, base2: nat,
                                  trace: seq<Event>, out: seq<SceneListElement>) {
    && |out| == |es|
    && base1 + Flagged(es) <= |trace|
    && base2 + Flagged(es) <= |trace|
    && forall i {:trigger out[i]} :: 0 <= i < |es| && es[i].rename ==>
         TwoPassRow(nm, Rank(es, i) + 1, es[i], trace[base1 + Rank(es, i)], trace[base2 + Rank(es, i)], out[i])
  }

  /** A temporary pass from `es` to `mid` followed by a final pass from `mid`
      to `out` over the same marks. */
  lemma {:induction false} ComposePasses(nm: Naming, es: seq<SceneListElement>, mid: seq<SceneListElement>, out: seq<SceneListElement>,
                      base1: nat, base2: nat, trace: seq<Event>)
    requires |mid| == |es|
    requires forall i :: 0 <= i < |es| ==> mid[i].rename == es[i].rename
    requires CallsMatch(nm, true, es, 0, base1, trace, mid)
    requires CallsMatch(nm, false, mid, 0, base2, trace, out)
    ensures BothPassesMatch(nm, es, base1, base2, trace, out)
  {
    FlaggedSameMarks(es, mid);
    forall i | 0 <= i < |es| && es[i].rename
      ensures TwoPassRow(nm, Rank(es, i) + 1, es[i], trace[base1 + Rank(es, i)], trace[base2 + Rank(es, i)], out[i])
    {
      RankSameMarks(es, mid, i);
      var index := Rank(es, i) + 1;
      var t := trace[base1 + Rank(es, i)];
      var f := trace[base2 + Rank(mid, i)];
      assert RowCall(nm, true, 0 + Rank(es, i) + 1, es[i], t, mid[i]);
      assert RowCall(nm, false, 0 + Rank(mid, i) + 1, mid[i], f, out[i]);
      assert 0 + Rank(es, i) + 1 == index && 0 + Rank(mid, i) + 1 == index;
      TempNameIsPrefixedFinalName(nm, index);
      assert f == trace[base2 + Rank(es, i)];
    }
  }

  /** RenameScenes(true): two passes with the same numbering, the first with
      the temporary prefix, each bracketed by its own Refresh and SaveAssets. */
  lemma {:induction false} TwoPasses(h: Host, nm: Naming, es: seq<SceneListElement>, ed: Editor, r: (seq<SceneListElement>, Editor))
    requires r == RenameScenes(h, nm, es, true, ed)
    ensures |r.0| == |es|
    ensures |r.1.trace| == |ed.trace| + 2 * Flagged(es) + 4
    ensures Bracket(r.1.trace, |ed.trace|, Flagged(es))
    ensures Bracket(r.1.trace, |ed.trace| + Flagged(es) + 2, Flagged(es))
    ensures BothPassesMatch(nm, es, |ed.trace| + 1, |ed.trace| + Flagged(es) + 3, r.1.trace, r.0)
  {
    TwoPassRows(h, nm, es, ed, r);
    var once := RefreshPassSave(h, nm, es, true, ed);
    assert r == RefreshPassSave(h, nm, once.0, false, once.1);
    OnePass(h, nm, es, true, ed, once);
    FlaggedSameMarks(es, once.0);
    OnePass(h, nm, once.0, false, once.1, r);
    JoinBrackets(once.1.trace, r.1.trace, |ed.trace|, Flagged(es), Flagged(once.0));
  }

  /** The row-by-row part of TwoPasses: each marked row's temporary call and
      final call, one pass length apart. */
  lemma {:induction false} TwoPassRows(h: Host, nm: Naming, es: seq<SceneListElement>, ed: Editor, r: (seq<SceneListElement>, Editor))
    requires r == RenameScenes(h, nm, es, true, ed)
    ensures BothPassesMatch(nm, es, |ed.trace| + 1, |ed.trace| + Flagged(es) + 3, r.1.trace, r.0)
  {
    var once := RefreshPassSave(h, nm, es, true, ed);
    assert r == RefreshPassSave(h, nm, once.0, false, once.1);
    var n, k := |ed.trace|, Flagged(es);
    // The facts of the two passes stay inside this proof.
    assert BothPassesMatch(nm, es, n + 1, n + k + 3, r.1.trace, r.0) by {
      OnePassCalls(h, nm, es, true, ed, once);
      FlaggedSameMarks(es, once.0);
      OnePassCalls(h, nm, once.0, false, once.1, r);
      JoinMatches(nm, es, once.0, r.0, n, k, once.1.trace, r.1.trace);
    }
  }

  /** The trace of the temporary pass, kept as the start of the trace of both
      passes, followed by the final pass's own bracket. */
  lemma {:induction false} JoinBrackets(t1: seq<Event>, t2: seq<Event>, n: nat, k: nat, k2: nat)
    requires k2 == k
    requires |t1| == n + k + 2 && |t2| == |t1| + k2 + 2 && t2[..|t1|] == t1
    requires Bracket(t1, n, k) && Bracket(t2, |t1|, k2)
    ensures |t2| == n + 2 * k + 4
    ensures Bracket(t2, n, k)
    ensures Bracket(t2, n + k + 2, k)
  {
  }

  /** The calls of a temporary pass, which later events leave in place, and
      those of the final pass after it line up row by row. */
  lemma {:induction false} JoinMatches(nm: Naming, es: seq<SceneListElement>, mid: seq<SceneListElement>,
                                       out: seq<SceneListElement>, n: nat, k: nat, t1: seq<Event>, t2: seq<Event>)
    requires |mid| == |es| && forall i :: 0 <= i < |es| ==> mid[i].rename == es[i].rename
    requires |t1| == n + k + 2 && |t1| <= |t2| && t2[..|t1|] == t1
    requires CallsMatch(nm, true, es, 0, n + 1, t1, mid)
    requires CallsMatch(nm, false, mid, 0, |t1| + 1, t2, out)
    ensures BothPassesMatch(nm, es, n + 1, n + k + 3, t2, out)
  {
    assert t2 == t1 + t2[|t1|..];
    CallsMatchExtend(nm, true, es, 0, n + 1, t1, t2[|t1|..], mid);
    var base2 := |t1| + 1;
    assert base2 == n + k + 3;
    ComposePasses(nm, es, mid, out, n + 1, base2, t2);
  }

  // ------------------------------------------------------------ all succeed

  /** When every call of the final pass succeeds (the temporary pass may
      fail anywhere), the k-th marked row ends up named with the base name
      and the suffix for k, and no two marked rows share a name. The final
      pass starts with the second Refresh, `Flagged(es) + 2` events into the
      run. */
  lemma {:induction false} AllSucceed(h: Host, nm: Naming, es: seq<SceneListElement>, ed: Editor, r: (seq<SceneListElement>, Editor))
    requires r == RenameScenes(h, nm, es, true, ed)
    requires NoErrors(r.1.trace, |ed.trace| + Flagged(es) + 2)
    ensures |r.0| == |es|
    ensures forall i :: 0 <= i < |es| && es[i].rename ==>
      r.0[i].assetName == nm.sceneName + FormatIndex(Rank(es, i) + 1, nm.sceneFormat)
    ensures forall i, j :: 0 <= i < j < |es| && es[i].rename && es[j].rename ==>
      r.0[i].assetName != r.0[j].assetName
  {
    TwoPasses(h, nm, es, ed, r);
    FinalNames(nm, es, |ed.trace| + 1, |ed.trace| + Flagged(es) + 2, r.1.trace, r.0);
  }

  /** Both passes matched and every final call succeeded: each marked row
      carries the final name for its index, so no two marked rows share a
      name. */
  lemma {:induction false} FinalNames(nm: Naming, es: seq<SceneListElement>, base1: nat, lo2: nat,
                   trace: seq<Event>, out: seq<SceneListElement>)
    requires BothPassesMatch(nm, es, base1, lo2 + 1, trace, out)
    requires Bracket(trace, lo2, Flagged(es)) && NoErrors(trace, lo2)
    ensures forall i :: 0 <= i < |es| && es[i].rename ==>
      out[i].assetName == nm.sceneName + FormatIndex(Rank(es, i) + 1, nm.sceneFormat)
    ensures forall i, j :: 0 <= i < j < |es| && es[i].rename && es[j].rename ==>
      out[i].assetName != out[j].assetName
  {
    FinalCallsWin(nm, es, base1, lo2, trace, out);
    forall i | 0 <= i < |es| && es[i].rename
      ensures out[i].assetName == nm.sceneName + FormatIndex(Rank(es, i) + 1, nm.sceneFormat)
    {
      TempNameIsPrefixedFinalName(nm, Rank(es, i) + 1);
    }
    DistinctIndicesDistinctNames(nm, es, out);
  }

  /** A successful final call decides the row's name. */
  lemma {:induction false} FinalCallsWin(nm: Naming, es: seq<SceneListElement>, base1: nat, lo2: nat,
                      trace: seq<Event>, out: seq<SceneListElement>)
    requires BothPassesMatch(nm, es, base1, lo2 + 1, trace, out)
    requires Bracket(trace, lo2, Flagged(es)) && NoErrors(trace, lo2)
    ensures forall i :: 0 <= i < |es| && es[i].rename ==> out[i].assetName == GetNewName(nm, Rank(es, i) + 1, false)
  {
  }

  /** Marked rows named by their index carry pairwise distinct names. */
  lemma {:induction false} DistinctIndicesDistinctNames(nm: Naming, es: seq<SceneListElement>, out: seq<SceneListElement>)
    requires |out| == |es|
    requires forall i :: 0 <= i < |es| && es[i].rename ==> out[i].assetName == GetNewName(nm, Rank(es, i) + 1, false)
    ensures forall i, j :: 0 <= i < j < |es| && es[i].rename && es[j].rename ==>
      out[i].assetName != out[j].assetName
  {
    forall i, j | 0 <= i < j < |es| && es[i].rename && es[j].rename
      ensures out[i].assetName != out[j].assetName
    {
      RankIncreasing(es, i, j);
      NewNameInjective(nm, Rank(es, i) + 1, Rank(es, j) + 1, false);
    }
  }

  /** Running the rename again on the list it produced, with the same marks
      and no re-read of the build settings, when no call of either run
      failed, leaves every row's name unchanged. */
  lemma {:induction false} RenameTwiceSameNames(h: Host, nm: Naming, es: seq<SceneListElement>, ed: Editor,
                             r1: (seq<SceneListElement>, Editor), r2: (seq<SceneListElement>, Editor))
    requires r1 == RenameScenes(h, nm, es, true, ed)
    requires r2 == RenameScenes(h, nm, r1.0, true, r1.1)
    requires NoErrors(r1.1.trace, |ed.trace|) && NoErrors(r2.1.trace, |r1.1.trace|)
    ensures |r1.0| == |r2.0| == |es|
    ensures forall i :: 0 <= i < |es| ==> r2.0[i].assetName == r1.0[i].assetName
  {
    AllSucceed(h, nm, es, ed, r1);
    AllSucceed(h, nm, r1.0, r1.1, r2);
    RenameScenesShape(h, nm, es, true, ed, r1);
    RenameScenesShape(h, nm, r1.0, true, r1.1, r2);
    forall i | 0 <= i < |es| ensures r2.0[i].assetName == r1.0[i].assetName {
      RankSameMarks(es, r1.0, i);
    }
  }

  // ------------------------------------------------------------ the list

  /** Every row of a fresh list is marked, so row i gets index i + 1. */
  lemma {:induction false} InitNumbering(scenes: seq<BuildScene>, s: Store, i: nat)
    requires i <= |scenes|
    ensures Rank(Init(scenes, s), i) == i
    decreases i
  {
    if i > 0 {
      InitNumbering(scenes, s, i - 1);
      RankStep(Init(scenes, s), i - 1);
    }
  }

  /** Writing back a fresh list reproduces the build settings. */
  lemma {:induction false} InitWriteBack(scenes: seq<BuildScene>, s: Store)
    ensures ReorderScenes(Init(scenes, s)) == scenes
  {
  }

  /** The Rename button on a fresh list, when no call of the run failed:
      the i-th build-settings scene is named with the suffix for i + 1, and
      the written-back build settings keep each scene's enabled flag. */
  lemma {:induction false} RenameFreshList(h: Host, nm: Naming, scenes: seq<BuildScene>, ed: Editor,
                        r: (seq<SceneListElement>, Editor, seq<BuildScene>))
    requires r == RenameAndWriteBack(h, nm, Init(scenes, ed.store), ed)
    requires NoErrors(r.1.trace, |ed.trace|)
    ensures |r.0| == |r.2| == |scenes|
    ensures forall i :: 0 <= i < |scenes| ==>
      r.0[i].assetName == nm.sceneName + FormatIndex(i + 1, nm.sceneFormat)
    ensures forall i :: 0 <= i < |scenes| ==>
      r.2[i].path == r.0[i].scenePath && r.2[i].enabled == scenes[i].enabled
  {
    var es := Init(scenes, ed.store);
    AllSucceed(h, nm, es, ed, RenameScenes(h, nm, es, true, ed));
    forall i | 0 <= i < |scenes| ensures Rank(es, i) == i {
      InitNumbering(scenes, ed.store, i);
    }
  }
}
