/**
 A model field that lives in a cache, in a database column or in a file of the archive, and is
 meant to behave like one variable.
 */
module ArchiveFields {
  import opened Basics

  /** Which row and column a field belongs to. */
  datatype FieldKey = FieldKey(table: string, field: string, externalId: string)

  /** Where the archive keeps a field; rows without a commit have no commit part. */
  datatype Path = Path(repoHash: string, commit: Option<string>, key: FieldKey)

  /**
   How values are treated: `none` is Python's `None`, `json` is encoding followed by decoding,
   and `missing` is the default for a value that cannot be found.
   */
  datatype Codec<!V> = Codec(none: V, truthy: V -> bool, json: V -> V, rehydrate: V -> V, missing: V)

  /** Decoded and rehydrated, a value is what was encoded; `None` is falsy and stays `None`. */
  ghost predicate Faithful<V(!new)>(c: Codec<V>) {
    && (forall v :: c.rehydrate(c.json(v)) == v)
    && !c.truthy(c.none)
  }

  /** The database column: as assigned, or as loaded back from the database. */
  datatype Column<V> = Null | Assigned(v: V) | Loaded(v: V)

  function ColumnValue<V>(c: Codec<V>, db: Column<V>): V
    requires !db.Null?
  {
    match db
    case Assigned(v) => v
    case Loaded(v) => c.json(v)
  }

  /** What one object holds for the field. */
  datatype Field<V> = Field(cache: Option<V>, db: Column<V>, path: Option<Path>)

  /** The files of the archive; each stands for the encoding of its value. */
  type Files<V> = map<Path, V>

  /** The value of the archive file; `inTime` says that some read finds it before the timeout. */
  function ArchivedValue<V>(c: Codec<V>, path: Option<Path>, files: Files<V>, inTime: bool): V {
    if path.Some? && path.value in files && inTime then c.rehydrate(c.json(files[path.value])) else c.missing
  }

  /** Reading the field: its value, and the field with that value cached. */
  function Got<V>(c: Codec<V>, f: Field<V>, files: Files<V>, inTime: bool): (V, Field<V>) {
    if f.cache.Some? && c.truthy(f.cache.value) then (f.cache.value, f)
    else
      var value := if f.db.Null? then ArchivedValue(c, f.path, files, inTime) else c.rehydrate(ColumnValue(c, f.db));
      (value, f.(cache := Some(value)))
  }

  function ToColumn<V(==)>(c: Codec<V>, v: V): Column<V> {
    if v == c.none then Null else Assigned(v)
  }

  /** Assigning the field: to `target` in the archive if there is one, else to the column. */
  function Assign<V(==)>(c: Codec<V>, f: Field<V>, files: Files<V>, v: V, target: Option<Path>): (Field<V>, Files<V>) {
    if target.Some? then
      var written := files[target.value := v];
      (Field(Some(v), Null, target), if f.path.Some? && f.path != target then written - {f.path.value} else written)
    else
      (Field(Some(v), ToColumn(c, v), f.path), files)
  }

  // ---------------------------------------------------------------------------------------------
  // The descriptor

  class Archive<V> {
    var files: Files<V>

    method WriteJson(repoHash: string, commit: Option<string>, key: FieldKey, data: V) returns (path: Path)
      modifies this
      ensures path == Path(repoHash, commit, key) && files == old(files)[path := data]
    {
      path := Path(repoHash, commit, key);
      files := files[path := data];
    }

    method DeleteFile(path: Path)
      modifies this
      ensures files == old(files) - {path}
    {
      files := files - {path};
    }

    /** `None` stands for the error that the file is not in storage (yet). */
    method ReadFile(c: Codec<V>, path: Path, visible: bool) returns (data: Option<V>)
      ensures data == if path in files && visible then Some(c.json(files[path])) else None
    {
      data := if path in files && visible then Some(c.json(files[path])) else None;
    }
  }

  class Instance<V> {
    const key: FieldKey
    const repoHash: string
    const commit: Option<string>
    var cache: Option<V>
    var db: Column<V>
    var path: Option<Path>

    function Held(): Field<V>
      reads this
    {
      Field(cache, db, path)
    }
  }

  /** Some attempt inside the timeout finds the file. */
  ghost predicate FoundInTime(start: int, timeout: nat, clock: nat -> int, visible: nat -> bool) {
    exists i: nat :: clock(i) < start + timeout && visible(i)
  }

  /** `clock(i)` is the time of attempt `i`; every attempt but the first follows a sleep. */
  ghost predicate Ticks(clock: nat -> int) {
    forall i: nat, j: nat :: i < j ==> clock(i) + (j - i) <= clock(j)
  }

  class ArchiveField<V(==)> {
    const codec: Codec<V>
    const readTimeout: nat

    constructor (codec: Codec<V>, readTimeout: nat)
      ensures this.codec == codec && this.readTimeout == readTimeout
    {
      this.codec, this.readTimeout := codec, readTimeout;
    }

    method ValueFromArchive(obj: Instance<V>, archive: Archive<V>, start: int, clock: nat -> int, visible: nat -> bool)
      returns (value: V)
      requires Ticks(clock)
      ensures var found := exists i: nat :: clock(i) < start + readTimeout && visible(i);
              value == if obj.path.Some? && obj.path.value in archive.files && found
                       then codec.rehydrate(codec.json(archive.files[obj.path.value])) else codec.missing
      ensures value == ArchivedValue(codec, obj.path, archive.files, FoundInTime(start, readTimeout, clock, visible))
    {
      if obj.path.Some? {
        var attempt: nat := 0;
        while clock(attempt) < start + readTimeout
          invariant forall i: nat :: i < attempt ==> !visible(i) || obj.path.value !in archive.files
          decreases start + readTimeout - clock(attempt)
        {
          var data := archive.ReadFile(codec, obj.path.value, visible(attempt));
          if data.Some? {
            return codec.rehydrate(data.value);
          }
          // sleep a little
          assert clock(attempt) + 1 <= clock(attempt + 1);
          attempt := attempt + 1;
        }
      }
      value := codec.missing;
    }

    method Get(obj: Instance<V>, archive: Archive<V>, start: int, clock: nat -> int, visible: nat -> bool) returns (value: V)
      requires Ticks(clock)
      modifies obj`cache
      ensures (value, obj.Held())
              == Got(codec, old(obj.Held()), archive.files, FoundInTime(start, readTimeout, clock, visible))
    {
      if obj.cache.Some? && codec.truthy(obj.cache.value) {
        return obj.cache.value;
      }
      if !obj.db.Null? {
        value := codec.rehydrate(ColumnValue(codec, obj.db));
      } else {
        value := ValueFromArchive(obj, archive, start, clock, visible);
      }
      obj.cache := Some(value);
    }

    method Set(obj: Instance<V>, archive: Archive<V>, value: V, shouldWriteToStorage: bool)
      modifies obj, archive
      ensures var target := if shouldWriteToStorage then Some(Path(obj.repoHash, obj.commit, obj.key)) else None;
              (obj.Held(), archive.files) == Assign(codec, old(obj.Held()), old(archive.files), value, target)
    {
      if shouldWriteToStorage {
        var oldFilePath := obj.path;
        var path := archive.WriteJson(obj.repoHash, obj.commit, obj.key, value);
        if oldFilePath.Some? && path != oldFilePath.value {
          archive.DeleteFile(oldFilePath.value);
        }
        obj.path := Some(path);
        obj.db := Null;
      } else {
        obj.db := ToColumn(codec, value);
      }
      obj.cache := Some(value);
    }
  }

  // ---------------------------------------------------------------------------------------------
  // Many fields, one archive

  datatype System<V> = System(fields: map<FieldKey, Field<V>>, files: Files<V>) {
    function At(k: FieldKey): Field<V> {
      if k in fields then fields[k] else Field(None, Null, None)
    }
  }

  /** `Drop` loads the object anew: the cache is gone and the column comes from the database. */
  datatype Op<V> =
    | Set(key: FieldKey, v: V, toStorage: bool, repoHash: string, commit: Option<string>)
    | Get(key: FieldKey, inTime: bool)
    | Drop(key: FieldKey)

  function Reloaded<V>(f: Field<V>): Field<V> {
    Field(None, if f.db.Assigned? then Loaded(f.db.v) else f.db, f.path)
  }

  function Step<V(==)>(c: Codec<V>, s: System<V>, op: Op<V>): System<V> {
    match op
    case Set(k, v, toStorage, repoHash, commit) =>
      var (f, files) := Assign(c, s.At(k), s.files, v, if toStorage then Some(Path(repoHash, commit, k)) else None);
      System(s.fields[k := f], files)
    case Get(k, inTime) => System(s.fields[k := Got(c, s.At(k), s.files, inTime).1], s.files)
    case Drop(k) => System(s.fields[k := Reloaded(s.At(k))], s.files)
  }

  function Run<V(==)>(c: Codec<V>, ops: seq<Op<V>>): System<V> {
    if ops == [] then System(map[], map[]) else Step(c, Run(c, ops[..|ops| - 1]), ops[|ops| - 1])
  }

  function LastSet<V>(ops: seq<Op<V>>, k: FieldKey): Option<V> {
    if ops == [] then None
    else
      var op := ops[|ops| - 1];
      if op.Set? && op.key == k then Some(op.v) else LastSet(ops[..|ops| - 1], k)
  }

  /** References lead to files, and every file is the one its field refers to. */
  ghost predicate Tidy<V>(s: System<V>) {
    && (forall k :: s.At(k).path.Some? ==> s.At(k).path.value in s.files && s.At(k).path.value.key == k)
    && (forall p :: p in s.files ==> s.At(p.key).path == Some(p))
  }

  /**
   In every run, also with falsy values and failing reads, no reference points to a deleted file
   and at most one file per field is in the archive.
   */
  lemma {:induction false} FilesStayTidy<V>(c: Codec<V>, ops: seq<Op<V>>)
    ensures Tidy(Run(c, ops))
    ensures forall p, q :: p in Run(c, ops).files && q in Run(c, ops).files && p.key == q.key ==> p == q
  {
    if ops != [] {
      FilesStayTidy(c, ops[..|ops| - 1]);
      StepKeepsTidy(c, Run(c, ops[..|ops| - 1]), ops[|ops| - 1]);
    }
  }

  lemma StepKeepsTidy<V>(c: Codec<V>, s: System<V>, op: Op<V>)
    requires Tidy(s)
    ensures Tidy(Step(c, s, op))
  {
    var t := Step(c, s, op);
    forall k | k != op.key ensures t.At(k) == s.At(k) {
    }
    if op.Set? && op.toStorage {
      var target := Path(op.repoHash, op.commit, op.key);
      assert t.At(op.key).path == Some(target) && target in t.files;
    }
  }

  /** The field holds `last`, wherever it is kept. */
  ghost predicate Stores<V>(c: Codec<V>, f: Field<V>, files: Files<V>, last: Option<V>) {
    match last
    case None => f.db.Null? && f.path.None? && (f.cache.Some? ==> f.cache.value == c.missing)
    case Some(v) =>
      && (!f.db.Null? ==> f.db.v == v && (f.db.Assigned? ==> (f.cache == Some(v) && c.truthy(v)) || c.rehydrate(v) == v))
      && (f.db.Null? ==> f.path.Some? && f.path.value in files && files[f.path.value] == v)
      && (f.cache.Some? && c.truthy(f.cache.value) ==> f.cache.value == v)
  }

  /**
   Falsy values go to storage, or are not `None` and rehydrate to themselves; reads that miss the
   file are not cached as found.
   */
  ghost predicate WellBehaved<V>(c: Codec<V>, ops: seq<Op<V>>) {
    forall i :: 0 <= i < |ops| ==>
      && (ops[i].Set? ==> c.truthy(ops[i].v) || ops[i].toStorage || (ops[i].v != c.none && c.rehydrate(ops[i].v) == ops[i].v))
      && (ops[i].Get? ==> ops[i].inTime || !c.truthy(c.missing))
  }

  lemma {:induction false} RunsStore<V(!new)>(c: Codec<V>, ops: seq<Op<V>>, k: FieldKey)
    requires Faithful(c) && WellBehaved(c, ops)
    ensures Stores(c, Run(c, ops).At(k), Run(c, ops).files, LastSet(ops, k))
  {
    if ops != [] {
      var init, op := ops[..|ops| - 1], ops[|ops| - 1];
      var s := Run(c, init);
      RunsStore(c, init, k);
      FilesStayTidy(c, init);
      assert WellBehaved(c, [op]) by {
        assert op == ops[|ops| - 1];
      }
      StepStores(c, s, op, k, LastSet(init, k));
    }
  }

  lemma StepStores<V(!new)>(c: Codec<V>, s: System<V>, op: Op<V>, k: FieldKey, last: Option<V>)
    requires Faithful(c) && Tidy(s) && Stores(c, s.At(k), s.files, last) && WellBehaved(c, [op])
    ensures Stores(c, Step(c, s, op).At(k), Step(c, s, op).files, if op.Set? && op.key == k then Some(op.v) else last)
  {
    assert [op][0] == op;
    var t := Step(c, s, op);
    if op.key != k {
      assert t.At(k) == s.At(k);
    }
  }

  /**
   The cache, the column and the archive act as one variable: after any sequence of sets, gets and
   reloads, of any fields, a get that reads in time returns what was set last.
   */
  lemma GetReturnsLastSet<V(!new)>(c: Codec<V>, ops: seq<Op<V>>, k: FieldKey)
    requires Faithful(c) && WellBehaved(c, ops)
    ensures var s := Run(c, ops);
            Got(c, s.At(k), s.files, true).0 == var last := LastSet(ops, k); if last.Some? then last.value else c.missing
  {
    RunsStore(c, ops, k);
  }

  /**
   Before a reload, a value assigned to the column is read back exactly when it is truthy, or
   rehydrating it without encoding it first leaves it alone.
   */
  lemma FalsyIsReadBackExactlyWhen<V(!new)>(c: Codec<V>, f: Field<V>, files: Files<V>, v: V)
    requires Faithful(c) && v != c.none
    ensures Got(c, Assign(c, f, files, v, None).0, files, true).0 == v <==> c.truthy(v) || c.rehydrate(v) == v
  {
  }

  /**
   A value assigned to the column is read back after a reload exactly when it is not `None`, or
   the archive value that shows through then happens to be `None` too: the old reference is kept.
   */
  lemma ColumnSetIsReadBackExactlyWhen<V(!new)>(c: Codec<V>, f: Field<V>, files: Files<V>, v: V)
    requires Faithful(c)
    ensures var (g, files') := Assign(c, f, files, v, None);
            Got(c, Reloaded(g), files', true).0 == v
            <==> v != c.none || ArchivedValue(c, f.path, files, true) == c.none
  {
  }

  /** Setting `None` in the column after a storage write brings the old value back. */
  lemma NoneShowsOldValue<V(!new)>(c: Codec<V>, k: FieldKey, v: V)
    requires Faithful(c) && c.truthy(v)
    ensures var ops := [Set(k, v, true, "hash", None), Set(k, c.none, false, "hash", None)];
            var s := Run(c, ops);
            LastSet(ops, k) == Some(c.none) && Got(c, s.At(k), s.files, true).0 == v && v != c.none
  {
    var first, second := Set(k, v, true, "hash", None), Set(k, c.none, false, "hash", None);
    assert [first, second][..1] == [first] && [first][..0] == [];
    assert Run(c, [first]) == Step(c, System(map[], map[]), first);
  }

  /**
   After a read that missed its file, the next one of the same object succeeds exactly when the default
   is falsy; after a reload it succeeds in any case.
   */
  lemma MissedReadRecoversExactlyWhen<V(!new)>(c: Codec<V>, f: Field<V>, files: Files<V>)
    requires Faithful(c) && f.cache.None? && f.db.Null? && f.path.Some? && f.path.value in files
    requires files[f.path.value] != c.missing
    ensures var g := Got(c, f, files, false).1;
            && (Got(c, g, files, true).0 == files[f.path.value] <==> !c.truthy(c.missing))
            && Got(c, Reloaded(g), files, true).0 == files[f.path.value]
  {
  }
}
