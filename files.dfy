/**
 * The server's record of uploaded files.  A row names a file by the hash of
 * its content, its path and its owner, and says whether it has been
 * processed.  Creating a file that its owner already has (same hash) does not
 * add a row: it marks the existing row unprocessed again.  The content hash
 * is a parameter.
 */
module Files {
  import opened Wrappers

  datatype FileRow = FileRow(id: nat, hash: string, path: string, userId: int, processed: bool)

  /** The right-hand side of `==`: `None`, a file row, or any other object. */
  datatype PyObject = PyNone | FileObject(file: FileRow) | OtherObject

  /** `File.__eq__`: equal to any file row with the same hash, never to `None` or a non-file. */
  predicate FileEquals(self: FileRow, other: PyObject) {
    if other.PyNone? then false
    else if !other.FileObject? then false
    else self.hash == other.file.hash
  }

  /** Equality ignores the owner: the same content uploaded by two users compares equal. */
  lemma FileEqualsIgnoresOwner(a: FileRow, b: FileRow)
    ensures FileEquals(a, FileObject(b)) <==> a.hash == b.hash
    ensures !FileEquals(a, PyNone) && !FileEquals(a, OtherObject)
  {
  }

  /** `filter_by(hash=h, userId=u).first()`: the position of the first row with that hash and owner. */
  function FindExisting(rows: seq<FileRow>, hash: string, userId: int): (r: Option<nat>)
    ensures r.Some? ==> r.value < |rows| && rows[r.value].hash == hash && rows[r.value].userId == userId
    ensures r.Some? ==> forall j :: 0 <= j < r.value ==> !(rows[j].hash == hash && rows[j].userId == userId)
    ensures r.None? ==> forall j :: 0 <= j < |rows| ==> !(rows[j].hash == hash && rows[j].userId == userId)
  {
    if |rows| == 0 then None
    else if rows[0].hash == hash && rows[0].userId == userId then Some(0)
    else match FindExisting(rows[1..], hash, userId)
      case None => None
      case Some(k) => Some(k + 1)
  }

  /** `get_files_by_user_id`: the rows owned by `userId`, in table order. */
  function FilesOfUser(rows: seq<FileRow>, userId: int): (r: seq<FileRow>)
    ensures forall f :: f in r <==> f in rows && f.userId == userId
    ensures |r| <= |rows|
  {
    if |rows| == 0 then []
    else
      var rest := FilesOfUser(rows[1..], userId);
      assert forall f :: f in rows <==> f == rows[0] || f in rows[1..];
      if rows[0].userId == userId then [rows[0]] + rest else rest
  }

  lemma {:induction false} FilesOfUserAppend(rows: seq<FileRow>, f: FileRow, userId: int)
    ensures FilesOfUser(rows + [f], userId) == FilesOfUser(rows, userId) + (if f.userId == userId then [f] else [])
  {
    if |rows| > 0 {
      assert (rows + [f])[1..] == rows[1..] + [f];
      FilesOfUserAppend(rows[1..], f, userId);
    }
  }

  /** Deduplication looks only at the owner's own files: it finds a row exactly when one of them has the hash. */
  lemma DedupIsPerUser(rows: seq<FileRow>, hash: string, userId: int)
    ensures FindExisting(rows, hash, userId).Some? <==> exists f :: f in FilesOfUser(rows, userId) && f.hash == hash
  {
    if FindExisting(rows, hash, userId).Some? {
      assert rows[FindExisting(rows, hash, userId).value] in rows;
    }
  }

  /** At most one row per (hash, owner) pair. */
  ghost predicate UniquePerUser(rows: seq<FileRow>) {
    forall i, j :: 0 <= i < j < |rows| ==> !(rows[i].hash == rows[j].hash && rows[i].userId == rows[j].userId)
  }

  datatype CreateOutcome = Raised(message: string) | Returned(file: FileRow)

  class FileTable {
    var rows: seq<FileRow>
    var nextId: nat

    ghost predicate Valid()
      reads this
    {
      UniquePerUser(rows) && forall i :: 0 <= i < |rows| ==> rows[i].id < nextId
    }

    constructor ()
      ensures Valid() && rows == [] && nextId == 1
    {
      rows := [];
      nextId := 1;
    }

    /**
     * `create_file`.  An empty path or a zero user id raises (the message is
     * rewrapped by the catch-all handler) and changes nothing.  If the owner
     * already has a row with this content hash, that row is marked
     * unprocessed and returned, its path unchanged.  Otherwise one
     * unprocessed row is added for the hash, path and owner.
     */
    method CreateFile(path: string, userId: int, computeHash: string -> string) returns (outcome: CreateOutcome)
      requires Valid()
      modifies this
      ensures Valid()
      ensures path == "" || userId == 0 ==>
        outcome == Raised("An unexpected error occurred: Path, and userId are required")
        && rows == old(rows) && nextId == old(nextId)
      ensures path != "" && userId != 0 ==>
        var hash := computeHash(path);
        match FindExisting(old(rows), hash, userId)
        case Some(k) =>
          && rows == old(rows)[k := old(rows)[k].(processed := false)]
          && nextId == old(nextId)
          && outcome == Returned(rows[k])
        case None =>
          && rows == old(rows) + [FileRow(old(nextId), hash, path, userId, false)]
          && nextId == old(nextId) + 1
          && outcome == Returned(FileRow(old(nextId), hash, path, userId, false))
    {
      if path == "" || userId == 0 {
        return Raised("An unexpected error occurred: Path, and userId are required");
      }
      var fileHash := computeHash(path);
      var existing := FindExisting(rows, fileHash, userId);
      if existing.Some? {
        var k := existing.value;
        rows := rows[k := rows[k].(processed := false)];
        outcome := Returned(rows[k]);
      } else {
        var newFile := FileRow(nextId, fileHash, path, userId, false);
        rows := rows + [newFile];
        nextId := nextId + 1;
        outcome := Returned(newFile);
      }
    }
  }
}
