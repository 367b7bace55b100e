/** The spool files under the chunk table (backend/activity_transcript.py): a row of the table names
    the file that holds its body, and sessions whose names differ only in `/` and `_` share files. */
module Spool {
  import opened Common
  import opened Retention

  /** A row as it is stored: the size of the body, but not the body. */
  datatype Row = Row(session: string, seqNo: nat, node: string, principal: string, storedAt: real, bytes: nat)

  type Path = (string, nat)

  datatype Disk = Disk(rows: seq<Row>, files: map<Path, seq<int>>)

  function Dir(session: string): string {
    seq(|session|, i requires 0 <= i < |session| => if session[i] == '/' then '_' else session[i])
  }

  /** Two sessions share a directory exactly when their names differ at most where each has a slash or
      an underscore. */
  lemma DirIff(a: string, b: string)
    ensures Dir(a) == Dir(b)
            <==> |a| == |b| && forall i | 0 <= i < |a| :: a[i] == b[i] || (a[i] in "/_" && b[i] in "/_")
  {
    assert "/_"[0] == '/' && "/_"[1] == '_';
    if Dir(a) == Dir(b) {
      forall i | 0 <= i < |a| ensures a[i] == b[i] || (a[i] in "/_" && b[i] in "/_") {
        assert Dir(a)[i] == Dir(b)[i];
      }
    } else if |a| == |b| {
      var i :| 0 <= i < |a| && Dir(a)[i] != Dir(b)[i];
      assert a[i] != b[i] && !(a[i] in "/_" && b[i] in "/_");
    }
  }

  function PathOf(session: string, seqNo: nat): Path {
    (Dir(session), seqNo)
  }

  function RowOf(c: Chunk): Row {
    Row(c.session, c.seqNo, c.node, c.principal, c.storedAt, |c.body|)
  }

  function FindRow(rows: seq<Row>, session: string, seqNo: nat): Option<Row> {
    if rows == [] then None
    else if rows[0].session == session && rows[0].seqNo == seqNo then Some(rows[0])
    else FindRow(rows[1..], session, seqNo)
  }

  function InsertRow(rows: seq<Row>, r: Row): seq<Row> {
    if rows == [] || rows[0].storedAt > r.storedAt || (rows[0].storedAt == r.storedAt && rows[0].seqNo > r.seqNo)
    then [r] + rows
    else [rows[0]] + InsertRow(rows[1..], r)
  }

  function DeleteRow(rows: seq<Row>, session: string, seqNo: nat): seq<Row> {
    if rows == [] then []
    else (if rows[0].session == session && rows[0].seqNo == seqNo then [] else [rows[0]])
         + DeleteRow(rows[1..], session, seqNo)
  }

  function ReadFile(files: map<Path, seq<int>>, path: Path): Option<seq<int>> {
    if path in files then Some(files[path]) else None
  }

  // ---------------------------------------------------------------- the store over rows and files

  datatype Op = PutOp(chunk: Chunk) | DeleteOp(session: string, seqNo: nat) | ReadOp(session: string, seqNo: nat)

  datatype Answer = Stored(row: Row) | Refused(error: PutError) | Deleted(bytes: nat) | Body(body: Option<seq<int>>)

  function OnDisk(d: Disk, op: Op): (Disk, Answer) {
    match op
    case PutOp(c) =>
      if c.session == "" || c.node == "" || c.principal == "" || c.storedAt <= 0.0 || c.body == [] then (d, Refused(Invalid))
      else
        var path := PathOf(c.session, c.seqNo);
        match FindRow(d.rows, c.session, c.seqNo) {
          case Some(row) =>
            if ReadFile(d.files, path) != Some(c.body) || row.node != c.node || row.principal != c.principal
            then (d, Refused(Conflicting))
            else (d, Stored(row))
          case None => (Disk(InsertRow(d.rows, RowOf(c)), d.files[path := c.body]), Stored(RowOf(c)))
        }
    case DeleteOp(session, seqNo) =>
      (match FindRow(d.rows, session, seqNo)
       case None => (d, Deleted(0))
       case Some(row) => (Disk(DeleteRow(d.rows, session, seqNo), d.files - {PathOf(session, seqNo)}), Deleted(row.bytes)))
    case ReadOp(session, seqNo) =>
      (d, Body(if FindRow(d.rows, session, seqNo).None? then None else ReadFile(d.files, PathOf(session, seqNo))))
  }

  /** The same operation on a table that holds the bodies itself. */
  function OnTable(chunks: Chunks, op: Op): (Chunks, Answer) {
    match op
    case PutOp(c) =>
      var (after, r) := Put(chunks, c);
      (after, if r.Ok? then Stored(RowOf(r.value)) else Refused(r.error))
    case DeleteOp(session, seqNo) =>
      var found := Find(chunks, session, seqNo);
      (Delete(chunks, session, seqNo), Deleted(if found.None? then 0 else |found.value.body|))
    case ReadOp(session, seqNo) =>
      var found := Find(chunks, session, seqNo);
      (chunks, Body(if found.None? then None else Some(found.value.body)))
  }

  function RunDisk(ops: seq<Op>): Disk {
    if ops == [] then Disk([], map[]) else OnDisk(RunDisk(ops[..|ops| - 1]), ops[|ops| - 1]).0
  }

  function RunTable(ops: seq<Op>): Chunks {
    if ops == [] then [] else OnTable(RunTable(ops[..|ops| - 1]), ops[|ops| - 1]).0
  }

  class SpooledChunkStore {
    var rows: seq<Row>
    var files: map<Path, seq<int>>

    constructor ()
      ensures View() == Disk([], map[])
    {
      rows, files := [], map[];
    }

    ghost function View(): Disk
      reads this
    {
      Disk(rows, files)
    }

    method PutChunk(c: Chunk) returns (r: Answer)
      modifies this
      ensures (View(), r) == OnDisk(old(View()), PutOp(c))
    {
      if c.session == "" || c.node == "" || c.principal == "" || c.storedAt <= 0.0 || c.body == [] {
        return Refused(Invalid);
      }
      var path := PathOf(c.session, c.seqNo);
      var row := FindRow(rows, c.session, c.seqNo);
      if row.Some? {
        var current := ReadFile(files, path);
        if current != Some(c.body) || row.value.node != c.node || row.value.principal != c.principal {
          return Refused(Conflicting);
        }
        return Stored(row.value);
      }
      files := files[path := c.body];
      rows := InsertRow(rows, RowOf(c));
      return Stored(RowOf(c));
    }

    method DeleteChunk(session: string, seqNo: nat) returns (r: Answer)
      modifies this
      ensures (View(), r) == OnDisk(old(View()), DeleteOp(session, seqNo))
    {
      var row := FindRow(rows, session, seqNo);
      if row.None? {
        return Deleted(0);
      }
      rows := DeleteRow(rows, session, seqNo);
      files := files - {PathOf(session, seqNo)};
      return Deleted(row.value.bytes);
    }

    method GetChunkBody(session: string, seqNo: nat) returns (r: Answer)
      ensures (View(), r) == OnDisk(View(), ReadOp(session, seqNo))
    {
      var row := FindRow(rows, session, seqNo);
      return Body(if row.None? then None else ReadFile(files, PathOf(session, seqNo)));
    }
  }

  // ---------------------------------------------------------------- rows

  function Rows(chunks: Chunks): (r: seq<Row>)
    ensures |r| == |chunks|
  {
    if chunks == [] then [] else [RowOf(chunks[0])] + Rows(chunks[1..])
  }

  lemma {:induction false} FindAgrees(chunks: Chunks, session: string, seqNo: nat)
    ensures var r := FindRow(Rows(chunks), session, seqNo);
            var c := Find(chunks, session, seqNo);
            r == if c.None? then None else Some(RowOf(c.value))
  {
    if chunks != [] {
      FindAgrees(chunks[1..], session, seqNo);
      assert Rows(chunks)[1..] == Rows(chunks[1..]);
    }
  }

  lemma {:induction false} InsertAgrees(chunks: Chunks, c: Chunk)
    ensures InsertRow(Rows(chunks), RowOf(c)) == Rows(Insert(chunks, c))
    ensures forall x :: x in Insert(chunks, c) <==> x in chunks || x == c
  {
    if chunks == [] || !NotAfter(chunks[0], c) {
      assert ([c] + chunks)[1..] == chunks;
    } else {
      InsertAgrees(chunks[1..], c);
      var rest := Insert(chunks[1..], c);
      assert ([chunks[0]] + rest)[1..] == rest;
      assert Rows(chunks)[1..] == Rows(chunks[1..]);
    }
  }

  lemma {:induction false} DeleteAgrees(chunks: Chunks, session: string, seqNo: nat)
    ensures DeleteRow(Rows(chunks), session, seqNo) == Rows(Delete(chunks, session, seqNo))
  {
    if chunks != [] {
      DeleteAgrees(chunks[1..], session, seqNo);
      var rest := Delete(chunks[1..], session, seqNo);
      assert Rows(chunks)[1..] == Rows(chunks[1..]);
      assert ([chunks[0]] + rest)[1..] == rest && [] + rest == rest && [] + Rows(rest) == Rows(rest);
    }
  }

  lemma StepKeepsRows(d: Disk, chunks: Chunks, op: Op)
    requires d.rows == Rows(chunks)
    ensures OnDisk(d, op).0.rows == Rows(OnTable(chunks, op).0)
  {
    hide Insert, Delete, InsertRow, DeleteRow, Find, FindRow, Rows;
    match op
    case PutOp(c) =>
      FindAgrees(chunks, c.session, c.seqNo);
      InsertAgrees(chunks, c);
    case DeleteOp(session, seqNo) =>
      FindAgrees(chunks, session, seqNo);
      DeleteAgrees(chunks, session, seqNo);
      if Find(chunks, session, seqNo).None? {
        DeleteNothing(chunks, session, seqNo);
      }
    case ReadOp(_, _) =>
  }

  /** Whatever the sessions are called, the rows are those of the table, so what retention selects
      and counts does not depend on the files. */
  lemma {:induction false} RowsAreTheTables(ops: seq<Op>)
    ensures RunDisk(ops).rows == Rows(RunTable(ops))
  {
    if ops != [] {
      RowsAreTheTables(ops[..|ops| - 1]);
      hide OnDisk, OnTable;
      StepKeepsRows(RunDisk(ops[..|ops| - 1]), RunTable(ops[..|ops| - 1]), ops[|ops| - 1]);
    }
  }

  // ---------------------------------------------------------------- bodies

  function SessionOf(op: Op): string {
    match op
    case PutOp(c) => c.session
    case DeleteOp(session, _) => session
    case ReadOp(session, _) => session
  }

  ghost predicate Within(ops: seq<Op>, names: iset<string>) {
    forall i | 0 <= i < |ops| :: SessionOf(ops[i]) in names
  }

  /** Every file of a stored chunk holds its body. */
  ghost predicate Refines(d: Disk, chunks: Chunks, names: iset<string>) {
    && d.rows == Rows(chunks)
    && forall c :: c in chunks ==> c.session in names && ReadFile(d.files, PathOf(c.session, c.seqNo)) == Some(c.body)
  }

  /** No two of the sessions share a directory. */
  ghost predicate OwnDirs(names: iset<string>) {
    forall a, b :: a in names && b in names && Dir(a) == Dir(b) ==> a == b
  }

  lemma StepRefines(d: Disk, chunks: Chunks, names: iset<string>, op: Op)
    requires OwnDirs(names) && Refines(d, chunks, names) && SessionOf(op) in names
    ensures Refines(OnDisk(d, op).0, OnTable(chunks, op).0, names)
    ensures OnDisk(d, op).1 == OnTable(chunks, op).1
  {
    StepKeepsRows(d, chunks, op);
    match op
    case PutOp(c) => PutRefines(d, chunks, names, c);
    case DeleteOp(session, seqNo) => DeleteRefines(d, chunks, names, session, seqNo);
    case ReadOp(session, seqNo) =>
      hide Rows, Dir, Find;
      FindAgrees(chunks, session, seqNo);
  }

  lemma PutRefines(d: Disk, chunks: Chunks, names: iset<string>, c: Chunk)
    requires OwnDirs(names) && Refines(d, chunks, names) && c.session in names
    requires OnDisk(d, PutOp(c)).0.rows == Rows(OnTable(chunks, PutOp(c)).0)
    ensures Refines(OnDisk(d, PutOp(c)).0, OnTable(chunks, PutOp(c)).0, names)
    ensures OnDisk(d, PutOp(c)).1 == OnTable(chunks, PutOp(c)).1
  {
    hide Insert, InsertRow, Rows, Dir, Find, FindRow;
    FindAgrees(chunks, c.session, c.seqNo);
    InsertAgrees(chunks, c);
  }

  lemma DeleteRefines(d: Disk, chunks: Chunks, names: iset<string>, session: string, seqNo: nat)
    requires OwnDirs(names) && Refines(d, chunks, names) && session in names
    requires OnDisk(d, DeleteOp(session, seqNo)).0.rows == Rows(OnTable(chunks, DeleteOp(session, seqNo)).0)
    ensures Refines(OnDisk(d, DeleteOp(session, seqNo)).0, OnTable(chunks, DeleteOp(session, seqNo)).0, names)
    ensures OnDisk(d, DeleteOp(session, seqNo)).1 == OnTable(chunks, DeleteOp(session, seqNo)).1
  {
    hide Delete, DeleteRow, Rows, Dir, Find, FindRow;
    FindAgrees(chunks, session, seqNo);
    forall x | x in Delete(chunks, session, seqNo)
      ensures x in chunks && PathOf(x.session, x.seqNo) != PathOf(session, seqNo)
    {
      DeleteKeeps(chunks, session, seqNo, x);
    }
  }

  lemma {:induction false} RunsRefine(ops: seq<Op>, names: iset<string>)
    requires OwnDirs(names) && Within(ops, names)
    ensures Refines(RunDisk(ops), RunTable(ops), names)
  {
    if ops != [] {
      hide OwnDirs, Refines, OnDisk, OnTable;
      RunsRefine(ops[..|ops| - 1], names);
      StepRefines(RunDisk(ops[..|ops| - 1]), RunTable(ops[..|ops| - 1]), names, ops[|ops| - 1]);
    }
  }

  /** No caller can tell the spool from a table that holds the bodies itself. */
  ghost predicate HoldsBodies(names: iset<string>) {
    forall ops, op | Within(ops, names) && SessionOf(op) in names ::
      OnDisk(RunDisk(ops), op).1 == OnTable(RunTable(ops), op).1
  }

  /** Two sessions that share a file: the second body replaces the first. */
  lemma SharedFileIsOverwritten(a: string, b: string)
    requires a != b && Dir(a) == Dir(b)
    ensures var ops := [PutOp(Chunk(a, 0, "n", "p", 1.0, [1])), PutOp(Chunk(b, 0, "n", "p", 1.0, [2]))];
            && OnTable(RunTable(ops), ReadOp(a, 0)).1 == Body(Some([1]))
            && OnDisk(RunDisk(ops), ReadOp(a, 0)).1 == Body(Some([2]))
  {
    assert a != "" && b != "" by {
      assert |Dir(a)| == |a| && |Dir(b)| == |b|;
    }
    hide Dir;
    var x, y := Chunk(a, 0, "n", "p", 1.0, [1]), Chunk(b, 0, "n", "p", 1.0, [2]);
    var ops := [PutOp(x), PutOp(y)];
    assert ops[..1] == [PutOp(x)] && [PutOp(x)][..0] == [];
    var first := Disk([RowOf(x)], map[PathOf(a, 0) := [1]]);
    assert RunTable([PutOp(x)]) == [x] && RunDisk([PutOp(x)]) == first;
    assert [x][1..] == [] && [RowOf(x)][1..] == [];
    assert RunDisk(ops) == OnDisk(first, PutOp(y)).0;
    assert FindRow([RowOf(x)], b, 0).None? && PathOf(b, 0) == PathOf(a, 0);
    assert OnDisk(first, PutOp(y)).0.files == first.files[PathOf(a, 0) := [2]];
    FindAgrees(RunTable(ops), a, 0);
    RowsAreTheTables(ops);
  }

  /** Main result: over all runs on a set of sessions every answer is that of a table with its own
      bodies, if and only if no two of the sessions share a directory. */
  lemma HoldsBodiesIff(names: iset<string>)
    ensures HoldsBodies(names) <==> OwnDirs(names)
  {
    hide OnDisk, OnTable, Dir;
    if OwnDirs(names) {
      forall ops, op | Within(ops, names) && SessionOf(op) in names
        ensures OnDisk(RunDisk(ops), op).1 == OnTable(RunTable(ops), op).1
      {
        RunsRefine(ops, names);
        StepRefines(RunDisk(ops), RunTable(ops), names, op);
      }
    } else {
      var a, b :| a in names && b in names && Dir(a) == Dir(b) && a != b;
      SharedFileIsOverwritten(a, b);
      var ops := [PutOp(Chunk(a, 0, "n", "p", 1.0, [1])), PutOp(Chunk(b, 0, "n", "p", 1.0, [2]))];
      assert Within(ops, names) && SessionOf(ReadOp(a, 0)) in names;
    }
  }
}
