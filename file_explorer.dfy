/**
 * The file explorer's directory forest.  The explorer keeps a list of root
 * directories; each directory has an id, a name, the files dropped on it and
 * its subdirectories, and an optional expanded flag.  Dropping files on a
 * directory and clicking a directory row both rewrite the whole forest with
 * the same recursive `map` that looks for the directory by id: the first
 * appends the dropped files, the second flips the expanded flag.  The
 * rendering indents each row by its depth.
 */
module FileExplorer {
  import opened Wrappers

  /** A browser `File` as the explorer uses it: its name and its size in bytes. */
  datatype DroppedFile = DroppedFile(name: string, size: nat)

  /** `isExpanded` is optional; an absent flag reads as false. */
  datatype Directory = Directory(
    id: string,
    name: string,
    files: seq<DroppedFile>,
    subdirectories: seq<Directory>,
    isExpanded: Option<bool>)

  predicate Expanded(d: Directory) {
    d.isExpanded == Some(true)
  }

  /** The forest the explorer starts with. */
  const InitialDirectories: seq<Directory> := [
    Directory("1", "Documents", [], [Directory("2", "Projects", [], [], None)], None),
    Directory("3", "Downloads", [], [], None)
  ]

  // ---------------------------------------------------------------------
  // The rewrite shared by the drop handler and the toggle handler
  // ---------------------------------------------------------------------

  /** What the rewrite does to the directory whose id matches. */
  datatype Edit = AppendFiles(dropped: seq<DroppedFile>) | FlipExpanded

  function ApplyEdit(e: Edit, d: Directory): (r: Directory)
    ensures r.id == d.id && r.name == d.name && r.subdirectories == d.subdirectories
    ensures e.AppendFiles? ==> r.files == d.files + e.dropped && r.isExpanded == d.isExpanded
    ensures e.FlipExpanded? ==> r.files == d.files && r.isExpanded.Some? && (Expanded(r) <==> !Expanded(d))
  {
    match e
    case AppendFiles(dropped) => d.(files := d.files + dropped)
    case FlipExpanded => d.(isExpanded := Some(!Expanded(d)))
  }

  /** Two trees have the same ids, names and shape, whatever their files and flags. */
  predicate SameOutline(a: Directory, b: Directory)
    decreases a
  {
    && a.id == b.id
    && a.name == b.name
    && |a.subdirectories| == |b.subdirectories|
    && forall i :: 0 <= i < |a.subdirectories| ==> SameOutline(a.subdirectories[i], b.subdirectories[i])
  }

  lemma {:induction false} SameOutlineReflexive(d: Directory)
    ensures SameOutline(d, d)
    decreases d
  {
    forall i | 0 <= i < |d.subdirectories|
      ensures SameOutline(d.subdirectories[i], d.subdirectories[i])
    {
      SameOutlineReflexive(d.subdirectories[i]);
    }
  }

  /** `updateDirectory(dirs)`: rewrite every directory of the list. */
  function UpdateDirectory(dirs: seq<Directory>, id: string, e: Edit): (r: seq<Directory>)
    ensures |r| == |dirs|
    ensures forall i :: 0 <= i < |dirs| ==> SameOutline(r[i], dirs[i])
    decreases dirs
  {
    seq(|dirs|, i requires 0 <= i < |dirs| => UpdateNode(dirs[i], id, e))
  }

  /**
   * The body of the `map` callback: a matching directory is edited and its
   * subdirectories are not visited; otherwise a directory with children is
   * rebuilt around the rewritten children, and a leaf is kept as it is.
   */
  function UpdateNode(d: Directory, id: string, e: Edit): (r: Directory)
    ensures SameOutline(r, d)
    decreases d
  {
    if d.id == id then
      SameOutlineReflexive(d);
      ApplyEdit(e, d)
    else if |d.subdirectories| > 0 then
      d.(subdirectories := UpdateDirectory(d.subdirectories, id, e))
    else
      d
  }

  /** The drop handler: append `droppedFiles`, in drop order, to the directory `directoryId`. */
  function HandleDrop(dirs: seq<Directory>, directoryId: string, droppedFiles: seq<DroppedFile>): seq<Directory> {
    UpdateDirectory(dirs, directoryId, AppendFiles(droppedFiles))
  }

  /** The click handler: flip the expanded flag of the directory `directoryId`. */
  function ToggleDirectory(dirs: seq<Directory>, directoryId: string): seq<Directory> {
    UpdateDirectory(dirs, directoryId, FlipExpanded)
  }

  // ---------------------------------------------------------------------
  // Addressing nodes by the path of child positions that leads to them
  // ---------------------------------------------------------------------

  /** The directory reached from the forest `dirs` by the child positions in `path`. */
  function NodeAt(dirs: seq<Directory>, path: seq<nat>): Option<Directory>
    decreases |path|
  {
    if |path| == 0 || path[0] >= |dirs| then None
    else if |path| == 1 then Some(dirs[path[0]])
    else NodeAt(dirs[path[0]].subdirectories, path[1..])
  }

  /** Some proper ancestor of the node at `path` has the id `id`. */
  predicate BelowMatch(dirs: seq<Directory>, path: seq<nat>, id: string)
    decreases |path|
  {
    && |path| > 1
    && path[0] < |dirs|
    && (dirs[path[0]].id == id || BelowMatch(dirs[path[0]].subdirectories, path[1..], id))
  }

  /**
   * What the rewrite does to each node, stated by position: the same
   * positions exist afterwards; a node under a matching ancestor is left
   * exactly as it was; a matching node that is not under another match gets
   * the edit; every other node keeps its id, name, files and flag.
   */
  lemma {:induction false} UpdateAt(dirs: seq<Directory>, id: string, e: Edit, path: seq<nat>)
    ensures NodeAt(UpdateDirectory(dirs, id, e), path).Some? <==> NodeAt(dirs, path).Some?
    ensures NodeAt(dirs, path).Some? ==>
      var n, m := NodeAt(dirs, path).value, NodeAt(UpdateDirectory(dirs, id, e), path).value;
      if BelowMatch(dirs, path, id) then m == n
      else if n.id == id then m == ApplyEdit(e, n)
      else m.id == n.id && m.name == n.name && m.files == n.files && m.isExpanded == n.isExpanded
    decreases |path|
  {
    var r := UpdateDirectory(dirs, id, e);
    if |path| > 1 && path[0] < |dirs| {
      var d := dirs[path[0]];
      if d.id != id && |d.subdirectories| > 0 {
        UpdateAt(d.subdirectories, id, e, path[1..]);
      }
    }
  }

  /** A directory with the id `id` occurs somewhere in the forest. */
  predicate Contains(dirs: seq<Directory>, id: string)
    decreases dirs
  {
    exists i :: 0 <= i < |dirs| && (dirs[i].id == id || Contains(dirs[i].subdirectories, id))
  }

  /** Rewriting for an id that occurs nowhere gives back the same forest. */
  lemma {:induction false} UpdateAbsent(dirs: seq<Directory>, id: string, e: Edit)
    requires !Contains(dirs, id)
    ensures UpdateDirectory(dirs, id, e) == dirs
    decreases dirs
  {
    var r := UpdateDirectory(dirs, id, e);
    forall i | 0 <= i < |dirs| ensures r[i] == dirs[i] {
      var d := dirs[i];
      if |d.subdirectories| > 0 {
        UpdateAbsent(d.subdirectories, id, e);
      }
    }
  }

  // ---------------------------------------------------------------------
  // The two handlers
  // ---------------------------------------------------------------------

  /**
   * Dropping files on `directoryId` appends them after the existing files of
   * every matching directory that is not inside another match, and changes no
   * other directory's files, name, id or flag.
   */
  lemma DropAt(dirs: seq<Directory>, directoryId: string, dropped: seq<DroppedFile>, path: seq<nat>)
    requires NodeAt(dirs, path).Some?
    ensures NodeAt(HandleDrop(dirs, directoryId, dropped), path).Some?
    ensures
      var n, m := NodeAt(dirs, path).value, NodeAt(HandleDrop(dirs, directoryId, dropped), path).value;
      && m.id == n.id && m.name == n.name && m.isExpanded == n.isExpanded
      && m.files == (if n.id == directoryId && !BelowMatch(dirs, path, directoryId) then n.files + dropped else n.files)
  {
    UpdateAt(dirs, directoryId, AppendFiles(dropped), path);
  }

  /**
   * Toggling `directoryId` negates the expanded flag (absent reading as
   * false) of every matching directory that is not inside another match, and
   * changes no other directory's flag, files, name or id.
   */
  lemma ToggleAt(dirs: seq<Directory>, directoryId: string, path: seq<nat>)
    requires NodeAt(dirs, path).Some?
    ensures NodeAt(ToggleDirectory(dirs, directoryId), path).Some?
    ensures
      var n, m := NodeAt(dirs, path).value, NodeAt(ToggleDirectory(dirs, directoryId), path).value;
      && m.id == n.id && m.name == n.name && m.files == n.files
      && if n.id == directoryId && !BelowMatch(dirs, path, directoryId)
         then m.isExpanded == Some(!Expanded(n))
         else m.isExpanded == n.isExpanded
  {
    UpdateAt(dirs, directoryId, FlipExpanded, path);
  }

  /** Both handlers are no-ops for an id that is not in the forest. */
  lemma HandlersIgnoreAbsentId(dirs: seq<Directory>, directoryId: string, dropped: seq<DroppedFile>)
    requires !Contains(dirs, directoryId)
    ensures HandleDrop(dirs, directoryId, dropped) == dirs
    ensures ToggleDirectory(dirs, directoryId) == dirs
  {
    UpdateAbsent(dirs, directoryId, AppendFiles(dropped));
    UpdateAbsent(dirs, directoryId, FlipExpanded);
  }

  /** The forest with every absent flag written out as `false`. */
  function Normalize(dirs: seq<Directory>): (r: seq<Directory>)
    ensures |r| == |dirs|
    decreases dirs
  {
    seq(|dirs|, i requires 0 <= i < |dirs| => NormalizeNode(dirs[i]))
  }

  function NormalizeNode(d: Directory): Directory
    decreases d
  {
    d.(isExpanded := Some(Expanded(d)), subdirectories := Normalize(d.subdirectories))
  }

  lemma {:induction false} ToggleTwiceNode(d: Directory, id: string)
    ensures NormalizeNode(UpdateNode(UpdateNode(d, id, FlipExpanded), id, FlipExpanded)) == NormalizeNode(d)
    decreases d
  {
    if d.id != id && |d.subdirectories| > 0 {
      ToggleTwiceForest(d.subdirectories, id);
    }
  }

  lemma {:induction false} ToggleTwiceForest(dirs: seq<Directory>, id: string)
    ensures Normalize(ToggleDirectory(ToggleDirectory(dirs, id), id)) == Normalize(dirs)
    decreases dirs
  {
    var twice := ToggleDirectory(ToggleDirectory(dirs, id), id);
    forall i | 0 <= i < |dirs| ensures Normalize(twice)[i] == Normalize(dirs)[i] {
      ToggleTwiceNode(dirs[i], id);
    }
  }

  // ---------------------------------------------------------------------
  // Rendering
  // ---------------------------------------------------------------------

  /** One rendered row: a directory header or a file line, with its left padding in pixels. */
  datatype Row =
    | FolderRow(id: string, name: string, paddingLeft: nat, chevronDown: bool)
    | FileRow(name: string, paddingLeft: nat, size: nat)

  /** The dialog body: the drop placeholder, or the rows of the forest. */
  datatype View = Placeholder | Rows(rows: seq<Row>)

  function FileRows(files: seq<DroppedFile>, paddingLeft: nat): (r: seq<Row>)
    ensures |r| == |files|
    ensures forall i :: 0 <= i < |r| ==> r[i] == FileRow(files[i].name, paddingLeft, files[i].size)
  {
    seq(|files|, i requires 0 <= i < |files| => FileRow(files[i].name, paddingLeft, files[i].size))
  }

  /**
   * `renderDirectory(directory, level)`: the header row, then, only when the
   * directory is expanded, its files one level deeper and its subdirectories.
   */
  function RenderDirectory(d: Directory, level: nat): (r: seq<Row>)
    ensures |r| >= 1 && r[0] == FolderRow(d.id, d.name, level * 16 + 8, Expanded(d))
    ensures !Expanded(d) ==> |r| == 1
    ensures Expanded(d) ==> |r| >= 1 + |d.files| && r[1..1 + |d.files|] == FileRows(d.files, (level + 1) * 16 + 8)
    decreases d
  {
    [FolderRow(d.id, d.name, level * 16 + 8, Expanded(d))]
      + if Expanded(d) then FileRows(d.files, (level + 1) * 16 + 8) + RenderForest(d.subdirectories, level + 1) else []
  }

  function RenderForest(dirs: seq<Directory>, level: nat): seq<Row>
    decreases dirs
  {
    if |dirs| == 0 then [] else RenderDirectory(dirs[0], level) + RenderForest(dirs[1..], level)
  }

  function FileExplorerView(dirs: seq<Directory>): (v: View)
    ensures v == Placeholder <==> |dirs| == 0
  {
    if |dirs| == 0 then Placeholder else Rows(RenderForest(dirs, 0))
  }

  function Padding(row: Row): nat {
    match row
    case FolderRow(_, _, p, _) => p
    case FileRow(_, p, _) => p
  }

  /** Every row is indented by 8 plus a multiple of 16 pixels, at least `level * 16 + 8`. */
  ghost predicate PaddedFrom(rows: seq<Row>, level: nat) {
    forall row :: row in rows ==> Padding(row) >= level * 16 + 8 && Padding(row) % 16 == 8
  }

  lemma PaddedConcat(a: seq<Row>, b: seq<Row>, level: nat)
    requires PaddedFrom(a, level) && PaddedFrom(b, level)
    ensures PaddedFrom(a + b, level)
  {
  }

  /** Every row rendered at depth `level` or deeper is padded by 8 plus a multiple of 16, at least `level * 16 + 8`. */
  lemma {:induction false} RenderPadding(dirs: seq<Directory>, level: nat)
    ensures PaddedFrom(RenderForest(dirs, level), level)
    decreases dirs
  {
    if |dirs| > 0 {
      var d := dirs[0];
      var header := [FolderRow(d.id, d.name, level * 16 + 8, Expanded(d))];
      assert (level * 16 + 8) % 16 == 8;
      assert PaddedFrom(header, level);
      var body: seq<Row> := [];
      if Expanded(d) {
        var files := FileRows(d.files, (level + 1) * 16 + 8);
        assert ((level + 1) * 16 + 8) % 16 == 8;
        assert PaddedFrom(files, level);
        RenderPadding(d.subdirectories, level + 1);
        var below := RenderForest(d.subdirectories, level + 1);
        assert PaddedFrom(below, level);
        PaddedConcat(files, below, level);
        body := files + below;
      }
      assert RenderDirectory(d, level) == header + body;
      PaddedConcat(header, body, level);
      RenderPadding(dirs[1..], level);
      PaddedConcat(RenderDirectory(d, level), RenderForest(dirs[1..], level), level);
    }
  }

  /** Clicking "Documents" in the initial forest shows its "Projects" subdirectory one level in. */
  lemma ToggleDocumentsExample()
    ensures FileExplorerView(ToggleDirectory(InitialDirectories, "1")) == Rows([
      FolderRow("1", "Documents", 8, true),
      FolderRow("2", "Projects", 24, false),
      FolderRow("3", "Downloads", 8, false)])
  {
    var t := ToggleDirectory(InitialDirectories, "1");
    assert t[0] == InitialDirectories[0].(isExpanded := Some(true));
    assert t[1] == InitialDirectories[1];
    assert t[0].subdirectories == [Directory("2", "Projects", [], [], None)];
    assert RenderForest(t[0].subdirectories, 1) == [FolderRow("2", "Projects", 24, false)];
    assert t[1..] == [t[1]];
  }
}
