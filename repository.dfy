/** The `Persistent` repository: maps entity instances to hashes in the
    store, issues ids from a per-class counter, soft-deletes records and
    scans them by id. */
module Repository {
  import opened Wrappers
  import opened Numerals
  import opened Redis
  import opened Entities

  /** The field a soft delete sets on a record. */
  const DELETED := "__deleted__"

  /** The constructor's default key separator and counter segment. */
  const DefaultSeparator := ":"
  const DefaultIdCount := "__latest__"

  /** `prefix`, `key_separator` and `id_count` of a repository. */
  datatype Config = Config(prefix: string, separator: string, idCount: string)

  /** `key_separator.join([prefix, classname, segment])` */
  function Key(cfg: Config, classname: string, segment: string): (k: string)
    ensures |k| == |cfg.prefix| + |classname| + 2 * |cfg.separator| + |segment|
    ensures k[..|cfg.prefix|] == cfg.prefix && k[|k| - |segment|..] == segment
  {
    cfg.prefix + cfg.separator + classname + cfg.separator + segment
  }

  /** The key of a class's id counter. */
  function CounterKey(cfg: Config, classname: string): (k: string)
    ensures |k| >= |cfg.idCount| && k[|k| - |cfg.idCount|..] == cfg.idCount
  {
    Key(cfg, classname, cfg.idCount)
  }

  /** Within one class, distinct segments give distinct keys. */
  lemma KeyInjective(cfg: Config, classname: string, s: string, t: string)
    ensures Key(cfg, classname, s) == Key(cfg, classname, t) <==> s == t
  {
    var p := cfg.prefix + cfg.separator + classname + cfg.separator;
    assert Key(cfg, classname, s) == p + s && Key(cfg, classname, t) == p + t;
    if p + s == p + t {
      assert s == (p + s)[|p|..] && t == (p + t)[|p|..];
    }
  }

  /** With a counter segment that is not a numeral (such as the default
      `__latest__`), no record issued by `update_id` shares the counter's key. */
  lemma CounterKeyIsNotRecordKey(cfg: Config, classname: string, id: nat)
    requires !IsNumeral(cfg.idCount)
    ensures Key(cfg, classname, NatToString(id)) != CounterKey(cfg, classname)
  {
    KeyInjective(cfg, classname, NatToString(id), cfg.idCount);
  }

  lemma DefaultIdCountIsNotNumeral()
    ensures !IsNumeral(DefaultIdCount)
  {
    assert !IsDigit(DefaultIdCount[0]);
  }

  /** `get_last_insert_id(classname)`: the counter read with GET and `int()`;
      `get_max_id(cls)` reads the same key and gives the same value. */
  function LastInsertId(cfg: Config, db: Db, classname: string): (id: Option<nat>)
    ensures id.None? <==> CounterKey(cfg, classname) !in db.strings
  {
    match Get(db, CounterKey(cfg, classname))
    case None => None
    case Some(s) => Some(ParseNat(s))
  }

  /** A counter holding `str(n)` reads back as `n`. */
  lemma LastInsertIdReadsCounter(cfg: Config, db: Db, classname: string, n: nat)
    requires Get(db, CounterKey(cfg, classname)) == Some(NatToString(n))
    ensures LastInsertId(cfg, db, classname) == Some(n)
  {
    ParseNatToString(n);
  }

  /** The id `update_id` issues after the counter value `last`. */
  function NextId(last: Option<nat>): (id: nat)
    ensures id == 0 <==> last.None?
    ensures last.Some? ==> id == last.value + 1
  {
    match last
    case None => 0
    case Some(n) => n + 1
  }

  /** The store after `update_id`: the counter holds `str` of the issued id. */
  function AfterUpdateId(cfg: Config, db: Db, classname: string): (after: Db)
    ensures LastInsertId(cfg, after, classname) == Some(NextId(LastInsertId(cfg, db, classname)))
    ensures after.hashes == db.hashes
    ensures forall k | k != CounterKey(cfg, classname) :: Get(after, k) == Get(db, k)
  {
    var ck := CounterKey(cfg, classname);
    LastInsertIdReadsCounter(cfg, db.(strings := db.strings[ck := NatToString(NextId(LastInsertId(cfg, db, classname)))]), classname, NextId(LastInsertId(cfg, db, classname)));
    db.(strings := db.strings[ck := NatToString(NextId(LastInsertId(cfg, db, classname)))])
  }

  /** Summary of `update_id` in terms of the stored counter: it issues 0 on
      an absent counter and n + 1 on a counter holding `str(n)`, leaves that
      id in the counter and touches no other key. */
  lemma UpdateIdAdvancesCounter(cfg: Config, db: Db, classname: string)
    ensures var after := AfterUpdateId(cfg, db, classname);
      && (CounterKey(cfg, classname) !in db.strings ==> NextId(LastInsertId(cfg, db, classname)) == 0)
      && (forall n: nat :: Get(db, CounterKey(cfg, classname)) == Some(NatToString(n)) ==> NextId(LastInsertId(cfg, db, classname)) == n + 1)
      && LastInsertId(cfg, after, classname) == Some(NextId(LastInsertId(cfg, db, classname)))
      && after.hashes == db.hashes
      && forall k | k != CounterKey(cfg, classname) :: Get(after, k) == Get(db, k)
  {
    forall n: nat | Get(db, CounterKey(cfg, classname)) == Some(NatToString(n))
      ensures NextId(LastInsertId(cfg, db, classname)) == n + 1
    {
      LastInsertIdReadsCounter(cfg, db, classname, n);
    }
  }

  /** The ids issued by `count` successive `update_id` calls for one class. */
  function IssuedIds(cfg: Config, db: Db, classname: string, count: nat): seq<nat>
    decreases count
  {
    if count == 0 then []
    else [NextId(LastInsertId(cfg, db, classname))] + IssuedIds(cfg, AfterUpdateId(cfg, db, classname), classname, count - 1)
  }

  /** Successive `update_id` calls issue consecutive ids, with no repeat and
      no gap: 0, 1, 2, ... from an absent counter, n + 1, n + 2, ... from n. */
  lemma {:induction false} IssuedIdsConsecutive(cfg: Config, db: Db, classname: string, count: nat)
    ensures var ids := IssuedIds(cfg, db, classname, count);
      && |ids| == count
      && (forall j | 0 <= j < count :: ids[j] == NextId(LastInsertId(cfg, db, classname)) + j)
      && (LastInsertId(cfg, db, classname) == None ==> forall j | 0 <= j < count :: ids[j] == j)
    decreases count
  {
    if count > 0 {
      var after := AfterUpdateId(cfg, db, classname);
      UpdateIdAdvancesCounter(cfg, db, classname);
      IssuedIdsConsecutive(cfg, after, classname, count - 1);
    }
  }

  /** The hash after `save`'s column loop: a non-`None` column is HSET to its
      string, a `None` column is HDELeted, every other field is kept. */
  function WriteColumns(h: Hash, columns: seq<string>, attrs: Attrs): (r: Hash)
    requires forall c | c in columns :: c in attrs
    ensures forall c | c in columns :: (c in r <==> attrs[c] != PyNone) && (c in r ==> r[c] == Str(attrs[c]))
    ensures forall f | f !in columns :: (f in r <==> f in h) && (f in r ==> r[f] == h[f])
    decreases |columns|
  {
    if columns == [] then h
    else
      var c := columns[|columns| - 1];
      var r := WriteColumns(h, columns[..|columns| - 1], attrs);
      assert forall x | x in columns :: x in columns[..|columns| - 1] || x == c;
      if attrs[c] != PyNone then r[c := Str(attrs[c])] else r - {c}
  }

  /** The id string `save` files a record under: the instance's own id when
      truthy, otherwise a fresh one from the counter. */
  function SavedId(cfg: Config, db: Db, classname: string, id: PyValue): (s: string)
    ensures s != ""
  {
    if Truthy(id) then Str(id) else NatToString(NextId(LastInsertId(cfg, db, classname)))
  }

  /** An instance's attributes as `save` leaves them: `id` is its id string. */
  function SavedAttrs(cfg: Config, db: Db, kind: EntityType, attrs: Attrs): (saved: Attrs)
    requires "id" in attrs
    ensures saved.Keys == attrs.Keys && saved["id"].PyStr? && Truthy(saved["id"])
    ensures Truthy(attrs["id"]) ==> saved["id"] == PyStr(Str(attrs["id"]))
    ensures forall a | a in attrs && a != "id" :: saved[a] == attrs[a]
  {
    attrs["id" := PyStr(SavedId(cfg, db, kind.name, attrs["id"]))]
  }

  /** The store after `save`: the counter advanced when a fresh id was
      issued, and the record's hash rewritten column by column. */
  function SavedDb(cfg: Config, db: Db, kind: EntityType, attrs: Attrs): (after: Db)
    requires "id" in attrs && forall c | c in kind.columns :: c in attrs
    ensures Truthy(attrs["id"]) ==> after.strings == db.strings
    ensures NoEmptyHash(db.hashes) ==> NoEmptyHash(after.hashes)
  {
    var id := SavedId(cfg, db, kind.name, attrs["id"]);
    var issued := if Truthy(attrs["id"]) then db else AfterUpdateId(cfg, db, kind.name);
    var key := Key(cfg, kind.name, id);
    var h := WriteColumns(HashAt(issued.hashes, key), kind.columns, SavedAttrs(cfg, db, kind, attrs));
    issued.(hashes := StoreHash(issued.hashes, key, h))
  }

  /** A record is hidden once its tombstone field holds a non-empty string. */
  predicate Tombstoned(h: Hash) {
    DELETED in h && h[DELETED] != ""
  }

  /** Setting the tombstone field to `"1"`, as `delete` does, hides a record
      whatever its other fields; a record without the field is visible. */
  lemma TombstoneField(h: Hash)
    ensures Tombstoned(h[DELETED := "1"]) && !Tombstoned(h - {DELETED})
  {
  }

  /** `load(cls, key)`: `None` for a tombstoned record, otherwise a new
      instance built from the record's column fields. */
  function Load(cfg: Config, db: Db, kind: EntityType, key: string): (obj: Option<Attrs>)
    ensures obj.None? <==> Tombstoned(HashAt(db.hashes, Key(cfg, kind.name, key)))
    ensures obj.Some? ==> forall c :: c in obj.value <==> c in kind.columns
    ensures obj.Some? ==> forall c | c in obj.value :: !obj.value[c].PyInt?
  {
    var h := HashAt(db.hashes, Key(cfg, kind.name, key));
    if Tombstoned(h) then None
    else Some(InitAttrs(kind.columns, map c | c in kind.columns && c != "self" && c in h :: PyStr(h[c])))
  }

  /** `load` of an id that was never saved gives an instance with every
      column `None`, not `None`. */
  lemma LoadNeverSaved(cfg: Config, db: Db, kind: EntityType, key: string)
    requires Key(cfg, kind.name, key) !in db.hashes
    ensures Load(cfg, db, kind, key) == Some(map c | c in kind.columns :: PyNone)
  {
    var none := map c | c in kind.columns :: PyNone;
    LoadWrittenRecord(cfg, db, kind, key, none);
    assert Reloaded(kind.columns, none) == none;
  }

  /** What one round trip through the store gives back: `None` stays `None`,
      any other value comes back as its string, and a column named `self`
      (never passed to `__init__`) comes back `None`. */
  function Reloaded(columns: seq<string>, attrs: Attrs): Attrs
    requires forall c | c in columns :: c in attrs
  {
    map c | c in columns :: if c == "self" || attrs[c] == PyNone then PyNone else PyStr(Str(attrs[c]))
  }

  /** `save` keeps a truthy id and leaves the counter alone; a falsy id
      (`None`, `0`, `""`) makes it issue the next id and advance the counter.
      Either way the instance's `id` becomes that id's string. */
  lemma SaveAssignsId(cfg: Config, db: Db, kind: EntityType, attrs: Attrs)
    requires "id" in attrs && forall c | c in kind.columns :: c in attrs
    ensures var after := SavedDb(cfg, db, kind, attrs);
      var id := SavedId(cfg, db, kind.name, attrs["id"]);
      && SavedAttrs(cfg, db, kind, attrs)["id"] == PyStr(id)
      && (Truthy(attrs["id"]) ==> id == Str(attrs["id"]) && after.strings == db.strings)
      && (!Truthy(attrs["id"]) ==>
            && id == NatToString(NextId(LastInsertId(cfg, db, kind.name)))
            && LastInsertId(cfg, after, kind.name) == Some(NextId(LastInsertId(cfg, db, kind.name))))
  {
    UpdateIdAdvancesCounter(cfg, db, kind.name);
  }

  /** After `save`, the record holds field `c` exactly for the non-`None`
      columns, with the value's string; no other field of it, no other
      hash and no plain key other than the counter changes. */
  lemma SaveWritesRecord(cfg: Config, db: Db, kind: EntityType, attrs: Attrs)
    requires "id" in attrs && forall c | c in kind.columns :: c in attrs
    ensures var after := SavedDb(cfg, db, kind, attrs);
      var saved := SavedAttrs(cfg, db, kind, attrs);
      var key := Key(cfg, kind.name, SavedId(cfg, db, kind.name, attrs["id"]));
      var h, h' := HashAt(db.hashes, key), HashAt(after.hashes, key);
      && (forall c | c in kind.columns :: (c in h' <==> saved[c] != PyNone) && (c in h' ==> h'[c] == Str(saved[c])))
      && (forall f | f !in kind.columns :: (f in h' <==> f in h) && (f in h' ==> h'[f] == h[f]))
      && (forall k | k != key :: HashAt(after.hashes, k) == HashAt(db.hashes, k))
      && (forall k | k != CounterKey(cfg, kind.name) :: Get(after, k) == Get(db, k))
  {
    UpdateIdAdvancesCounter(cfg, db, kind.name);
  }

  /** Round trip: loading a record right after saving it, when it was not
      tombstoned, gives back each column's saved value as a string, and
      `None` for the `None` columns. */
  lemma SaveLoadRoundTrip(cfg: Config, db: Db, kind: EntityType, attrs: Attrs)
    requires WellFormed(kind)
    requires "id" in attrs && forall c | c in kind.columns :: c in attrs
    requires !Tombstoned(HashAt(db.hashes, Key(cfg, kind.name, SavedId(cfg, db, kind.name, attrs["id"]))))
    ensures var id := SavedId(cfg, db, kind.name, attrs["id"]);
      Load(cfg, SavedDb(cfg, db, kind, attrs), kind, id) == Some(Reloaded(kind.columns, SavedAttrs(cfg, db, kind, attrs)))
  {
    var id := SavedId(cfg, db, kind.name, attrs["id"]);
    var key := Key(cfg, kind.name, id);
    var after := SavedDb(cfg, db, kind, attrs);
    SaveWritesRecord(cfg, db, kind, attrs);
    assert DELETED !in kind.columns by {
      assert StartsWithUnderscore(DELETED);
    }
    LoadWrittenRecord(cfg, after, kind, id, SavedAttrs(cfg, db, kind, attrs));
  }

  /** `load` of a record whose column fields mirror `saved` and that is not
      tombstoned gives back `Reloaded(saved)`. */
  lemma LoadWrittenRecord(cfg: Config, db: Db, kind: EntityType, id: string, saved: Attrs)
    requires forall c | c in kind.columns :: c in saved
    requires var h := HashAt(db.hashes, Key(cfg, kind.name, id));
      && !Tombstoned(h)
      && forall c | c in kind.columns :: (c in h <==> saved[c] != PyNone) && (c in h ==> h[c] == Str(saved[c]))
    ensures Load(cfg, db, kind, id) == Some(Reloaded(kind.columns, saved))
  {
    var h := HashAt(db.hashes, Key(cfg, kind.name, id));
    var kwargs := map c | c in kind.columns && c != "self" && c in h :: PyStr(h[c]);
    var loaded := InitAttrs(kind.columns, kwargs);
    var expected := Reloaded(kind.columns, saved);
    assert loaded.Keys == expected.Keys;
    forall c | c in loaded
      ensures loaded[c] == expected[c]
    {
    }
    assert loaded == expected;
    assert Load(cfg, db, kind, id) == Some(loaded);
  }

  /** A second `save` of the same instance keeps its id and leaves the store
      as the first one left it. */
  lemma SaveIdempotent(cfg: Config, db: Db, kind: EntityType, attrs: Attrs)
    requires "id" in attrs && forall c | c in kind.columns :: c in attrs
    ensures var after := SavedDb(cfg, db, kind, attrs);
      var saved := SavedAttrs(cfg, db, kind, attrs);
      && SavedId(cfg, after, kind.name, saved["id"]) == SavedId(cfg, db, kind.name, attrs["id"])
      && SavedAttrs(cfg, after, kind, saved) == saved
      && SavedDb(cfg, after, kind, saved) == after
  {
    var id := SavedId(cfg, db, kind.name, attrs["id"]);
    var saved := SavedAttrs(cfg, db, kind, attrs);
    var key := Key(cfg, kind.name, id);
    var after := SavedDb(cfg, db, kind, attrs);
    var issued := if Truthy(attrs["id"]) then db else AfterUpdateId(cfg, db, kind.name);
    var h := WriteColumns(HashAt(issued.hashes, key), kind.columns, saved);
    assert after.hashes == StoreHash(issued.hashes, key, h);
    assert Truthy(saved["id"]) && SavedId(cfg, after, kind.name, saved["id"]) == id;
    assert saved["id" := PyStr(id)] == saved;
    WriteColumnsIdempotent(HashAt(issued.hashes, key), kind.columns, saved);
    StoreHashTwice(issued.hashes, key, h, h);
  }

  /** Writing the same columns twice is the same as writing them once. */
  lemma WriteColumnsIdempotent(h: Hash, columns: seq<string>, attrs: Attrs)
    requires forall c | c in columns :: c in attrs
    ensures WriteColumns(WriteColumns(h, columns, attrs), columns, attrs) == WriteColumns(h, columns, attrs)
  {
    var once := WriteColumns(h, columns, attrs);
    var twice := WriteColumns(once, columns, attrs);
    assert twice.Keys == once.Keys;
  }

  /** A second write of the hash at `k` replaces the first. */
  lemma StoreHashTwice(hashes: map<string, Hash>, k: string, h1: Hash, h2: Hash)
    ensures StoreHash(StoreHash(hashes, k, h1), k, h2) == StoreHash(hashes, k, h2)
  {
  }

  /** One more column of the loop: the hash after columns `..i + 1` is the
      hash after columns `..i` with column `i` written. */
  lemma WriteColumnsStep(h: Hash, columns: seq<string>, attrs: Attrs, i: nat)
    requires i < |columns| && forall c | c in columns :: c in attrs
    ensures var before, c := WriteColumns(h, columns[..i], attrs), columns[i];
      WriteColumns(h, columns[..i + 1], attrs) == if attrs[c] != PyNone then before[c := Str(attrs[c])] else before - {c}
  {
    assert columns[..i + 1][..i] == columns[..i];
  }

  /** The store after `delete` of an instance whose id is the string `id`:
      only the record's tombstone field is set. */
  function DeletedDb(cfg: Config, db: Db, classname: string, id: string): (after: Db)
    ensures after.strings == db.strings
    ensures Tombstoned(HashAt(after.hashes, Key(cfg, classname, id)))
    ensures NoEmptyHash(db.hashes) ==> NoEmptyHash(after.hashes)
  {
    var key := Key(cfg, classname, id);
    db.(hashes := StoreHash(db.hashes, key, HashAt(db.hashes, key)[DELETED := "1"]))
  }

  /** After `delete`, `load` of that id gives `None`; the counter, and so
      `get_max_id` and the next id issued, are unchanged; only the record's
      tombstone field differs. */
  lemma DeleteHidesRecord(cfg: Config, db: Db, kind: EntityType, id: string)
    ensures var after := DeletedDb(cfg, db, kind.name, id);
      var key := Key(cfg, kind.name, id);
      && Load(cfg, after, kind, id) == None
      && HashAt(after.hashes, key) - {DELETED} == HashAt(db.hashes, key) - {DELETED}
      && (forall c :: LastInsertId(cfg, after, c) == LastInsertId(cfg, db, c))
      && (forall k | k != key :: HashAt(after.hashes, k) == HashAt(db.hashes, k))
  {
  }

  /** The ids `load_all` walks by default: `range(max_id + 1)`, or
      `range(max_id, -1, -1)` when reversed. */
  function DefaultRange(maxId: nat, reverse: bool): (ids: seq<int>)
    ensures |ids| == maxId + 1
    ensures forall j | 0 <= j < |ids| :: 0 <= ids[j] <= maxId
    ensures !reverse ==> forall i, j | 0 <= i < j < |ids| :: ids[i] < ids[j]
    ensures reverse ==> forall i, j | 0 <= i < j < |ids| :: ids[i] > ids[j]
  {
    seq(maxId + 1, j requires 0 <= j <= maxId => if reverse then maxId - j else j)
  }

  /** `list(load_all(cls, _range, reverse))`: nothing without a counter,
      otherwise `load` of every id of the range (by default all ids up to
      the counter). A given range wins over `reverse`. */
  function LoadAll(cfg: Config, db: Db, kind: EntityType, range: Option<seq<int>>, reverse: bool): (items: seq<Option<Attrs>>)
    ensures LastInsertId(cfg, db, kind.name).None? ==> items == []
    ensures LastInsertId(cfg, db, kind.name).Some? ==>
      |items| == if range.Some? then |range.value| else LastInsertId(cfg, db, kind.name).value + 1
    ensures LastInsertId(cfg, db, kind.name).Some? && range.Some? ==>
      forall j | 0 <= j < |items| :: items[j] == Load(cfg, db, kind, IntToString(range.value[j]))
  {
    match LastInsertId(cfg, db, kind.name)
    case None => []
    case Some(maxId) =>
      var ids := range.GetOr(DefaultRange(maxId, reverse));
      seq(|ids|, j requires 0 <= j < |ids| => Load(cfg, db, kind, IntToString(ids[j])))
  }

  /** `list(load_all_only_keys(cls, key, reverse))`: the raw stored field
      `field` of every id up to the counter, tombstoned or not. */
  function LoadAllOnlyKeys(cfg: Config, db: Db, kind: EntityType, field: string, reverse: bool): (stored: seq<Option<string>>)
    ensures |stored| == match LastInsertId(cfg, db, kind.name) case None => 0 case Some(m) => m + 1
  {
    match LastInsertId(cfg, db, kind.name)
    case None => []
    case Some(maxId) =>
      var ids := DefaultRange(maxId, reverse);
      seq(|ids|, j requires 0 <= j < |ids| => HGet(db, Key(cfg, kind.name, IntToString(ids[j])), field))
  }

  /** Without a counter both scans yield nothing. With counter `m` they yield
      `m + 1` items, item `j` being about id `j` (id `m - j` when reversed);
      a `load_all` item is `None` exactly where the record is tombstoned. */
  lemma LoadAllShape(cfg: Config, db: Db, kind: EntityType, field: string, reverse: bool)
    ensures LastInsertId(cfg, db, kind.name) == None ==>
      forall range :: LoadAll(cfg, db, kind, range, reverse) == [] && LoadAllOnlyKeys(cfg, db, kind, field, reverse) == []
    ensures LastInsertId(cfg, db, kind.name).Some? ==>
      var m := LastInsertId(cfg, db, kind.name).value;
      var items := LoadAll(cfg, db, kind, None, reverse);
      var stored := LoadAllOnlyKeys(cfg, db, kind, field, reverse);
      && |items| == |stored| == m + 1
      && forall j | 0 <= j <= m ::
           var id := NatToString(if reverse then m - j else j);
           && items[j] == Load(cfg, db, kind, id)
           && (items[j] == None <==> Tombstoned(HashAt(db.hashes, Key(cfg, kind.name, id))))
           && stored[j] == HGet(db, Key(cfg, kind.name, id), field)
  {
  }

  /** A reversed scan yields the same items in the opposite order. */
  lemma LoadAllReverse(cfg: Config, db: Db, kind: EntityType, field: string)
    ensures var forward, backward := LoadAll(cfg, db, kind, None, false), LoadAll(cfg, db, kind, None, true);
      |backward| == |forward| && forall j | 0 <= j < |forward| :: backward[j] == forward[|forward| - 1 - j]
    ensures var forward, backward := LoadAllOnlyKeys(cfg, db, kind, field, false), LoadAllOnlyKeys(cfg, db, kind, field, true);
      |backward| == |forward| && forall j | 0 <= j < |forward| :: backward[j] == forward[|forward| - 1 - j]
  {
  }

  /** The two scans agree: where `load_all` yields an instance, its column
      `field` is the string `load_all_only_keys` yields, or `None` where that
      field is absent. */
  lemma LoadAllAgreesWithOnlyKeys(cfg: Config, db: Db, kind: EntityType, field: string, reverse: bool)
    requires field in kind.columns && field != "self"
    ensures var items, stored := LoadAll(cfg, db, kind, None, reverse), LoadAllOnlyKeys(cfg, db, kind, field, reverse);
      && |items| == |stored|
      && forall j | 0 <= j < |items| && items[j].Some? ::
           items[j].value[field] == match stored[j] case None => PyNone case Some(v) => PyStr(v)
  {
  }

  /** The index of the first element of `s` that satisfies `p`, or `|s|`. */
  function FirstMatch<T>(s: seq<T>, p: T -> bool): (k: nat)
    ensures k <= |s|
    ensures forall j | 0 <= j < k :: !p(s[j])
    ensures k < |s| ==> p(s[k])
    decreases |s|
  {
    if s == [] then 0 else if p(s[0]) then 0 else 1 + FirstMatch(s[1..], p)
  }

  /** Python's `==` between what HGET returns (a string, or `None` for an
      absent field) and the value `find_by` is given: `None` equals only an
      absent field, a string only the same string, and an integer never
      equals a string. */
  predicate StoredEquals(stored: Option<string>, value: PyValue)
    ensures value.PyInt? ==> !StoredEquals(stored, value)
    ensures StoredEquals(stored, value) ==> if value.PyNone? then stored.None? else stored == Some(Str(value))
  {
    match value
    case PyNone => stored.None?
    case PyStr(s) => stored == Some(s)
    case PyInt(_) => false
  }

  /** The test `find_by` applies to a stored field. */
  function Equals(value: PyValue): Option<string> -> bool {
    stored => StoredEquals(stored, value)
  }

  /** `find_by(cls, key, value)`: `load` of the lowest id whose stored field
      equals `value`, even when that record is tombstoned; `None` when no id
      matches. */
  function FindByResult(cfg: Config, db: Db, kind: EntityType, field: string, value: PyValue): (found: Option<Attrs>)
    ensures LastInsertId(cfg, db, kind.name).None? ==> found == None
  {
    var stored := LoadAllOnlyKeys(cfg, db, kind, field, false);
    var k := FirstMatch(stored, Equals(value));
    if k < |stored| then Load(cfg, db, kind, NatToString(k)) else None
  }

  /** `find_by` gives `load` of the lowest id up to the counter whose stored
      field equals `value`, and `None` when the counter is absent or no id
      matches. */
  lemma FindByLowestMatch(cfg: Config, db: Db, kind: EntityType, field: string, value: PyValue, id: nat)
    requires LastInsertId(cfg, db, kind.name).Some? && id <= LastInsertId(cfg, db, kind.name).value
    requires StoredEquals(HGet(db, Key(cfg, kind.name, NatToString(id)), field), value)
    requires forall j: nat | j < id :: !StoredEquals(HGet(db, Key(cfg, kind.name, NatToString(j)), field), value)
    ensures FindByResult(cfg, db, kind, field, value) == Load(cfg, db, kind, NatToString(id))
  {
    var stored := LoadAllOnlyKeys(cfg, db, kind, field, false);
    assert StoredEquals(stored[id], value);
  }

  lemma FindByNoMatch(cfg: Config, db: Db, kind: EntityType, field: string, value: PyValue)
    requires LastInsertId(cfg, db, kind.name).Some? ==>
      forall j: nat | j <= LastInsertId(cfg, db, kind.name).value :: !StoredEquals(HGet(db, Key(cfg, kind.name, NatToString(j)), field), value)
    ensures FindByResult(cfg, db, kind, field, value) == None
  {
    var stored := LoadAllOnlyKeys(cfg, db, kind, field, false);
  }

  /** `find_by` with an integer value finds nothing: a stored field is
      always a string, and `"3" == 3` is False in Python. */
  lemma FindByIntegerNeverMatches(cfg: Config, db: Db, kind: EntityType, field: string, i: int)
    ensures FindByResult(cfg, db, kind, field, PyInt(i)) == None
  {
    FindByNoMatch(cfg, db, kind, field, PyInt(i));
  }

  /** `find_by` stops at the first matching id: when that record is
      tombstoned it gives `None`, even though a later record matches and
      would load. */
  lemma FindByStopsAtTombstone(cfg: Config, db: Db, kind: EntityType, field: string, value: PyValue, id: nat)
    requires LastInsertId(cfg, db, kind.name).Some? && id <= LastInsertId(cfg, db, kind.name).value
    requires StoredEquals(HGet(db, Key(cfg, kind.name, NatToString(id)), field), value)
    requires forall j: nat | j < id :: !StoredEquals(HGet(db, Key(cfg, kind.name, NatToString(j)), field), value)
    requires Tombstoned(HashAt(db.hashes, Key(cfg, kind.name, NatToString(id))))
    ensures FindByResult(cfg, db, kind, field, value) == None
  {
    FindByLowestMatch(cfg, db, kind, field, value, id);
  }

  /** A repository over a store client. */
  class Persistent {
    const cfg: Config
    const r: Client

    /** `Persistent(prefix, key_separator=":", id_count="__latest__", r)`
        with the client given. */
    constructor (prefix: string, separator: string := DefaultSeparator, idCount: string := DefaultIdCount, r: Client)
      ensures cfg == Config(prefix, separator, idCount) && this.r == r
    {
      cfg := Config(prefix, separator, idCount);
      this.r := r;
    }

    /** `set_id(classname, id)`: SET the counter to `str(id)`. */
    method SetId(classname: string, id: int)
      requires r.Valid()
      modifies r
      ensures r.Valid()
      ensures r.db == old(r.db).(strings := old(r.db).strings[CounterKey(cfg, classname) := IntToString(id)])
    {
      r.Set(CounterKey(cfg, classname), IntToString(id));
    }

    /** `update_id(obj)`: issues the next id for the instance's class,
        stores it in the counter and in `obj.id`. */
    method UpdateId(obj: Instance) returns (id: nat)
      requires r.Valid()
      modifies r, obj
      ensures r.Valid()
      ensures id == NextId(LastInsertId(cfg, old(r.db), obj.kind.name))
      ensures r.db == AfterUpdateId(cfg, old(r.db), obj.kind.name)
      ensures obj.attrs == old(obj.attrs)["id" := PyInt(id)]
    {
      var classname := obj.kind.name;
      var last := LastInsertId(cfg, r.db, classname);
      if last.Some? {
        obj.SetAttribute("id", PyInt(last.value + 1));
        SetId(classname, last.value + 1);
        id := last.value + 1;
      } else {
        obj.SetAttribute("id", PyInt(0));
        SetId(classname, 0);
        id := 0;
      }
    }

    /** `save(obj)`: gives the instance an id when its `id` is falsy, turns
        `id` into its string, then HSETs each non-`None` column and HDELs
        each `None` one. An instance without an `id` attribute raises
        AttributeError before anything is written. */
    method Save(obj: Instance) returns (outcome: Outcome<()>)
      requires obj.Valid() && r.Valid()
      modifies r, obj
      ensures obj.Valid() && r.Valid()
      ensures "id" !in old(obj.attrs) ==> outcome == Raised(AttributeError) && r.db == old(r.db) && obj.attrs == old(obj.attrs)
      ensures "id" in old(obj.attrs) ==>
        && outcome == Returned(())
        && r.db == SavedDb(cfg, old(r.db), obj.kind, old(obj.attrs))
        && obj.attrs == SavedAttrs(cfg, old(r.db), obj.kind, old(obj.attrs))
    {
      if "id" !in obj.attrs {
        return Raised(AttributeError);
      }
      var classname := obj.kind.name;
      var params := obj.kind.columns;
      var id := obj.attrs["id"];
      ghost var issued := r.db;
      if !Truthy(id) {
        var n := UpdateId(obj);
        id := PyInt(n);
        issued := AfterUpdateId(cfg, old(r.db), classname);
      }
      assert Str(id) == SavedId(cfg, old(r.db), classname, old(obj.attrs)["id"]);
      obj.SetAttribute("id", PyStr(Str(id)));
      assert obj.attrs == SavedAttrs(cfg, old(r.db), obj.kind, old(obj.attrs));
      assert r.db == issued;
      WriteRecord(Key(cfg, classname, Str(id)), params, obj.attrs);
      return Returned(());
    }

    /** The column loop of `save`: for each column, HSET the field to the
        value's string when the value is not `None`, HDEL it otherwise. */
    method WriteRecord(key: string, columns: seq<string>, attrs: Attrs)
      requires r.Valid() && forall c | c in columns :: c in attrs
      modifies r
      ensures r.Valid()
      ensures r.db == old(r.db).(hashes := StoreHash(old(r.db).hashes, key, WriteColumns(HashAt(old(r.db).hashes, key), columns, attrs)))
    {
      ghost var start := old(r.db);
      ghost var h0 := HashAt(start.hashes, key);
      StoreHashUnchanged(start.hashes, key);
      for i := 0 to |columns|
        invariant r.Valid()
        invariant r.db == start.(hashes := StoreHash(start.hashes, key, WriteColumns(h0, columns[..i], attrs)))
      {
        var param := columns[i];
        ghost var before := WriteColumns(h0, columns[..i], attrs);
        assert HashAt(r.db.hashes, key) == before;
        WriteColumnsStep(h0, columns, attrs, i);
        if attrs[param] != PyNone {
          var _ := r.HSet(key, param, Str(attrs[param]));
          StoreHashTwice(start.hashes, key, before, before[param := Str(attrs[param])]);
        } else {
          r.HDel(key, param);
          StoreHashTwice(start.hashes, key, before, before - {param});
        }
      }
      assert columns[..|columns|] == columns;
    }

    /** `delete(obj)`: `False` (here `None`) when `obj.id` is `None`;
        otherwise HSET of the tombstone field, returning HSET's reply. An
        integer id makes the key join raise TypeError, a missing `id`
        attribute raises AttributeError. */
    method Delete(obj: Instance) returns (outcome: Outcome<Option<nat>>)
      requires r.Valid()
      modifies r
      ensures r.Valid()
      ensures "id" !in obj.attrs ==> outcome == Raised(AttributeError) && r.db == old(r.db)
      ensures "id" in obj.attrs && obj.attrs["id"].PyNone? ==> outcome == Returned(None) && r.db == old(r.db)
      ensures "id" in obj.attrs && obj.attrs["id"].PyInt? ==> outcome == Raised(TypeError) && r.db == old(r.db)
      ensures "id" in obj.attrs && obj.attrs["id"].PyStr? ==>
        var key := Key(cfg, obj.kind.name, obj.attrs["id"].s);
        && outcome == Returned(Some(if DELETED in HashAt(old(r.db).hashes, key) then 0 else 1))
        && r.db == DeletedDb(cfg, old(r.db), obj.kind.name, obj.attrs["id"].s)
    {
      var classname := obj.kind.name;
      if "id" !in obj.attrs {
        return Raised(AttributeError);
      }
      match obj.attrs["id"]
      case PyNone =>
        return Returned(None);
      case PyInt(_) =>
        return Raised(TypeError);
      case PyStr(id) =>
        var created := r.HSet(Key(cfg, classname, id), DELETED, "1");
        return Returned(Some(created));
    }

    /** `find(cls, cond)`: the first `load_all` item (`None` for a tombstoned
        id) for which `cond` is True, or `None` when there is none. */
    method Find(kind: EntityType, cond: Option<Attrs> -> bool) returns (found: Option<Attrs>)
      ensures var items := LoadAll(cfg, r.db, kind, None, false);
        var k := FirstMatch(items, cond);
        found == if k < |items| then items[k] else None
    {
      var items := LoadAll(cfg, r.db, kind, None, false);
      var i := 0;
      while i < |items|
        invariant 0 <= i <= |items|
        invariant forall j | 0 <= j < i :: !cond(items[j])
      {
        if cond(items[i]) {
          return items[i];
        }
        i := i + 1;
      }
      return None;
    }

    /** `find_by(cls, key, value)`: walks ids 0 to the counter and loads the
        first one whose stored field `field` equals `value`. */
    method FindBy(kind: EntityType, field: string, value: PyValue) returns (found: Option<Attrs>)
      ensures found == FindByResult(cfg, r.db, kind, field, value)
    {
      var maxId := LastInsertId(cfg, r.db, kind.name);
      if maxId == None {
        return None;
      }
      ghost var stored := LoadAllOnlyKeys(cfg, r.db, kind, field, false);
      var i := 0;
      while i <= maxId.value
        invariant 0 <= i <= maxId.value + 1 == |stored|
        invariant forall j | 0 <= j < i :: !Equals(value)(stored[j])
      {
        var name := Key(cfg, kind.name, NatToString(i));
        if StoredEquals(HGet(r.db, name, field), value) {
          assert Equals(value)(stored[i]);
          return Load(cfg, r.db, kind, NatToString(i));
        }
        i := i + 1;
      }
      return None;
    }
  }
}
