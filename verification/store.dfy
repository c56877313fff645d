/** The editor's asset database, reduced to what the scene renamer uses:
    assets identified by a GUID that survives renaming, lookups between paths
    and GUIDs, and a rename whose success or failure is decided by the host. */
module AssetStore {

  datatype Option<T> = None | Some(value: T)

  /** A stored asset: where its file lives and the name of its object. */
  datatype Asset = Asset(path: string, name: string)

  /** The GUID of an asset is its position in the store. */
  type Guid = nat

  datatype Store = Store(assets: seq<Asset>)

  /** What the store does that the renamer cannot see. `renameError` is the
      message RenameAsset returns for a request in a given store state (empty
      on success); `movedPath` is the path a successfully renamed file ends up
      at. */
  datatype Host = Host(
    renameError: (Store, string, string) -> string,
    movedPath: (string, string) -> string)

  /** The first GUID at or after `from` whose asset lives at `path`. */
  function FindFrom(assets: seq<Asset>, path: string, from: nat): (g: Option<Guid>)
    requires from <= |assets|
    ensures g.Some? ==> from <= g.value < |assets| && assets[g.value].path == path
    ensures g.Some? ==> forall j :: from <= j < g.value ==> assets[j].path != path
    ensures g.None? <==> forall j :: from <= j < |assets| ==> assets[j].path != path
    decreases |assets| - from
  {
    if from == |assets| then None
    else if assets[from].path == path then Some(from)
    else FindFrom(assets, path, from + 1)
  }

  /** AssetPathToGUID: the GUID of the asset at `path`, if any; a GUID found
      for a path resolves back to that path. */
  function PathToGuid(s: Store, path: string): (g: Option<Guid>)
    ensures g.Some? ==> g.value < |s.assets| && s.assets[g.value].path == path
    ensures g.Some? ==> GuidToPath(s, g) == path
    ensures g.None? <==> forall j :: 0 <= j < |s.assets| ==> s.assets[j].path != path
  {
    FindFrom(s.assets, path, 0)
  }

  /** GUIDToAssetPath: the current path of a GUID; the empty string for a
      GUID the store does not know (and for the empty GUID). */
  function GuidToPath(s: Store, g: Option<Guid>): string
  {
    if g.Some? && g.value < |s.assets| then s.assets[g.value].path else ""
  }

  /** LoadAssetAtPath followed by `.name`; the empty string when nothing
      lives at `path`. */
  function LoadAssetName(s: Store, path: string): string
  {
    match PathToGuid(s, path)
    case Some(g) => s.assets[g].name
    case None => ""
  }

  /** RenameAsset: asks the host; on an empty reply the asset at `path` (if
      any) takes the new name and moves to the host's new path, and no other
      asset changes. Returns the new store and the reply. */
  function RenameAsset(h: Host, s: Store, path: string, newName: string): (r: (Store, string))
    ensures r.1 == h.renameError(s, path, newName)
    ensures r.1 != "" ==> r.0 == s
    ensures |r.0.assets| == |s.assets|
    ensures forall j :: 0 <= j < |s.assets| && Some(j) != PathToGuid(s, path) ==> r.0.assets[j] == s.assets[j]
    ensures r.1 == "" && PathToGuid(s, path).Some? ==>
      r.0.assets[PathToGuid(s, path).value] == Asset(h.movedPath(path, newName), newName)
    ensures r.1 == "" && PathToGuid(s, path).Some? ==>
      GuidToPath(r.0, PathToGuid(s, path)) == h.movedPath(path, newName)
  {
    var error := h.renameError(s, path, newName);
    if error != "" then (s, error)
    else
      match PathToGuid(s, path)
      case None => (s, error)
      case Some(g) => (Store(s.assets[g := Asset(h.movedPath(path, newName), newName)]), error)
  }
}
