# redisorm core, modelled in Dafny

This project models the core of `redisorm`, a small object mapper that
stores Python objects as hashes in a Redis store. It has two parts.

**Entity classes.** The metaclass collects an entity class's `_columns`. These
are the class-body attributes that hold a `Column` and whose names do not start
with `_`, in declaration order. `PersistentData.__init__` gives an instance one
attribute per column: the keyword argument when one is given, otherwise `None`.
A keyword argument named `self` makes the call raise `TypeError` before
`__init__` runs.
Only the class's own namespace is scanned, so columns of a base class are not
inherited. Module `Entities` (entities.dfy) holds this part:

- `DeclareClass` is the metaclass loop, proved against the filter `Columns`.
- `Instance` is an object with an attribute map `attrs`. Its constructor is
  `__init__`, proved against `InitAttrs`. `Construct` is the call of the class,
  which may raise.
- `PyValue` is `None`, an int or a str. These are the values columns and `id` hold here.

**The `Persistent` repository.** Every key is
`key_separator.join([prefix, classname, segment])`.

- A plain key per class (segment `id_count`, default `__latest__`) holds the
  highest issued id.
- A hash per record (segment `str(id)`) holds one field per non-`None` column.
- A soft delete sets the field `__deleted__` to `"1"`. A record whose
  `__deleted__` field is non-empty does not load.

The store is a `Redis.Client` object over a `Db` value: a map of plain keys and
a map of hashes. It has the GET/HGET reads and the SET/HSET/HDEL writes. As in
Redis, a hash that loses its last field disappears.

Module `Repository` (repository.dfy) has two halves:

- The read-only operations are functions over a `Db`: `LastInsertId`
  (`get_last_insert_id` and `get_max_id`), `Load`, `LoadAll` and `LoadAllOnlyKeys`.
- The state-changing operations are methods of class `Persistent`, each proved
  against a function of the old state: `SetId`, `UpdateId` (against
  `AfterUpdateId`), `Save` (against `SavedDb`/`SavedAttrs`) and `Delete`
  (against `DeletedDb`). `Find` and `FindBy` are loops that return the first
  match, proved against `FirstMatch`.

Module `Scenario` (scenario.dfy) chains several calls: two saves of new
instances, then a delete.

Python exceptions the code raises are modelled as results, not preconditions:

- `save` of an object without an `id` attribute raises `AttributeError`.
- `delete` of an object whose `id` is an int raises `TypeError` when the key
  is joined.

Behaviour kept as the code has it:

- `save` reuses `obj.id` only when it is truthy. An integer id `0` or an empty
  string gets a fresh id.
- `load` of an id that was never saved gives an instance whose columns are all
  `None`, not `None`.
- `find_by` returns `load` of the first matching id, so it gives `None` when
  that record is tombstoned, even if a later record matches.
- A column named `self` is never passed back to `__init__` by `load`, so it
  loads as `None`.

What the code does not have:

- There is no primary key, sorted index, type adapter, column default or
  schema error.
- `load` falls back to `None` for a missing field; `Column.default` is never read.
- `delete` of an object whose `id` is `None` returns `False`; it raises no error.

## Model

| member | source | states |
|---|---|---|
| `Entities.Columns` | redisorm/core.py:15-19 | every collected column name is a non-underscore name; there are no more columns than namespace entries |
| `Entities.ColumnsMembership` | redisorm/core.py:15-19 | a name is in `_columns` if and only if some class attribute of that name is a `Column` and does not start with `_` |
| `Entities.ColumnsAppend` | redisorm/core.py:15-19 | columns keep declaration order: the columns of a namespace are those of its first part followed by those of the rest |
| `Entities.DeclareClass` | redisorm/core.py:11-20 | the metaclass loop builds exactly `Columns(namespace)`, and no column is an underscore name (so none is `__deleted__`) |
| `Entities.Truthy` | redisorm/core.py:93 | the falsy values are exactly `None`, `0` and `""` |
| `Entities.InitAttrs` | redisorm/core.py:30-32 | a new instance has an attribute exactly for each column, holding its keyword argument or `None`; keyword arguments naming no column are ignored; requires no `self` keyword, which Python refuses before `__init__` runs |
| `Entities.Instance.constructor` | redisorm/core.py:30-32 | `__init__`'s loop leaves `attrs == InitAttrs(columns, kwargs)`, with every column present |
| `Entities.Construct` | redisorm/core.py:30 | calling the class raises TypeError exactly when a keyword argument is named `self` (it clashes with `__init__`'s first parameter); otherwise it returns a new instance built by `__init__` |
| `Entities.Instance.SetAttribute` | redisorm/core.py:73-76 | `obj.name = v` changes that one attribute and keeps every column present |
| `Entities.Str` | redisorm/core.py:94 | `str()` of an int id is non-empty and, for a natural number, a decimal numeral; `str()` of a string is itself |
| `Numerals.NatToString` | redisorm/core.py:85 | `str(n)` is a non-empty decimal numeral without leading zero |
| `Numerals.ParseNat` | redisorm/core.py:82 | `int()` of a string of `k` decimal digits is below `10^k`; with `ParseNatToString`, `int(str(n)) == n` (also used by `get_max_id`, redisorm/core.py:162) |
| `Numerals.ParseNatToString` | redisorm/core.py:80-85 | `int(str(n)) == n`: the counter written by `set_id` reads back as the same id |
| `Numerals.NatToStringInjective` | redisorm/core.py:94-98 | distinct ids have distinct strings, so distinct record keys |
| `Numerals.IntToString` | redisorm/core.py:94 | `str(i)` is a numeral for `i >= 0` and a minus sign before a numeral otherwise |
| `Redis.StoreHash` | redisorm/core.py:98-100 | writing a hash at one key leaves every other key's hash as it was; an emptied hash is removed |
| `Redis.Get` | redisorm/core.py:81 | GET gives the value of a present plain key and `None` for an absent one |
| `Redis.HGet` | redisorm/core.py:109 | HGET gives the field's value when the hash and the field exist, `None` otherwise (also at redisorm/core.py:113-114, 139 and 154) |
| `Redis.Client.Set` | redisorm/core.py:85 | SET replaces the value of one plain key |
| `Redis.Client.HSet` | redisorm/core.py:98 | HSET sets one field of one hash and replies 1 when the field is new, 0 otherwise |
| `Redis.Client.HDel` | redisorm/core.py:100 | HDEL removes one field of one hash |
| `Repository.Key` | redisorm/core.py:81 | a joined key starts with the prefix, ends with the segment and is as long as its parts and two separators |
| `Repository.CounterKey` | redisorm/core.py:81 | the counter key ends with `id_count` (the same key at redisorm/core.py:85 and 160-162); `CounterKeyIsNotRecordKey` keeps it apart from record keys |
| `Repository.KeyInjective` | redisorm/core.py:98 | within one prefix and class, record keys are equal exactly when their id segments are equal |
| `Repository.CounterKeyIsNotRecordKey` | redisorm/core.py:81 | when `id_count` is not a numeral, no record with an issued id shares the counter key |
| `Repository.DefaultIdCountIsNotNumeral` | redisorm/core.py:63 | the default `id_count`, `__latest__`, is not a numeral |
| `Repository.LastInsertId` | redisorm/core.py:80-82 | `get_last_insert_id` (and `get_max_id`, redisorm/core.py:158-162) is `None` exactly when the counter key is absent |
| `Repository.LastInsertIdReadsCounter` | redisorm/core.py:80-85 | a counter holding `str(n)` reads back as `n` |
| `Repository.NextId` | redisorm/core.py:72-76 | the issued id is `0` exactly when there is no counter, and otherwise one more than the counter |
| `Repository.AfterUpdateId` | redisorm/core.py:69-85 | after `update_id` the counter reads as the issued id; hashes and every other plain key are unchanged |
| `Repository.UpdateIdAdvancesCounter` | redisorm/core.py:69-85 | summary in terms of the stored counter: `update_id` issues 0 when the counter is absent and n+1 when it holds `str(n)`; the counter then holds the new id; no other key changes |
| `Repository.IssuedIdsConsecutive` | redisorm/core.py:69-85 | successive `update_id` calls issue consecutive ids with no repeat and no gap: 0, 1, 2, ... from an absent counter |
| `Repository.WriteColumns` | redisorm/core.py:96-100 | after the column loop, field `c` is present exactly for the non-`None` columns and holds the value's string; non-column fields are kept |
| `Repository.SavedId` | redisorm/core.py:93-94 | the id `save` files a record under is never the empty string |
| `Repository.SavedAttrs` | redisorm/core.py:93-94 | after `save`, `obj.id` is a non-empty string (the old id's `str` when it was truthy) and no other attribute changes |
| `Repository.SavedDb` | redisorm/core.py:87-102 | `save` of an instance with a truthy id leaves the plain keys alone, and it never leaves a hash without fields |
| `Repository.SaveAssignsId` | redisorm/core.py:93-94 | a truthy `obj.id` is kept and the counter untouched; a falsy one (`None`, `0`, `""`) gets the next id and the counter advances to it; `obj.id` becomes the id's string |
| `Repository.SaveWritesRecord` | redisorm/core.py:96-100 | after `save`, the record hash mirrors the non-`None` columns; no other field of it, no other hash and no plain key but the counter change |
| `Repository.SaveLoadRoundTrip` | redisorm/core.py:96-115 | `load` right after `save` of a non-tombstoned record gives each non-`None` column back as its string and `None` elsewhere |
| `Repository.LoadWrittenRecord` | redisorm/core.py:104-115 | `load` of a non-tombstoned record builds the instance from the column fields present in the hash, `None` for absent ones |
| `Repository.SaveIdempotent` | redisorm/core.py:93-100 | saving the same instance again keeps its id, issues nothing and leaves the store unchanged |
| `Repository.WriteColumnsIdempotent` | redisorm/core.py:96-100 | running the column loop twice with the same values gives the same hash as once |
| `Repository.Load` | redisorm/core.py:104-116 | `load` gives `None` exactly when the record is tombstoned; otherwise an instance with an attribute exactly per column, each a string or `None` |
| `Repository.TombstoneField` | redisorm/core.py:109 | the field value `"1"` that `delete` writes (redisorm/core.py:168) hides a record; a record without the field is not hidden |
| `Repository.DeletedDb` | redisorm/core.py:164-168 | after `delete` the record is tombstoned, plain keys are unchanged and no hash is left empty |
| `Repository.LoadNeverSaved` | redisorm/core.py:104-116 | `load` of an id that was never saved gives an instance with every column `None`, not `None` |
| `Repository.DeleteHidesRecord` | redisorm/core.py:164-168 | after `delete`, `load` of that id gives `None`; only the record's `__deleted__` field differs; every counter, so `get_max_id`, is unchanged |
| `Repository.DefaultRange` | redisorm/core.py:122-126 | the default scan visits each id 0..max_id once, ascending, or descending when reversed |
| `Repository.LoadAll` | redisorm/core.py:118-128 | `load_all` yields nothing without a counter; otherwise one item per id of the given range, item j being `load` of `str` of the range's j-th id, or max_id+1 items by default |
| `Repository.LoadAllOnlyKeys` | redisorm/core.py:130-139 | `load_all_only_keys` yields nothing without a counter, otherwise max_id+1 items |
| `Repository.LoadAllShape` | redisorm/core.py:118-139 | without a counter both scans yield nothing; otherwise they yield max_id+1 items, item j about id j (max_id-j reversed), and a `load_all` item is `None` exactly where the record is tombstoned |
| `Repository.LoadAllReverse` | redisorm/core.py:122-137 | a reversed scan yields the same items in the opposite order |
| `Repository.LoadAllAgreesWithOnlyKeys` | redisorm/core.py:118-139 | where `load_all` yields an instance, its column holds the string `load_all_only_keys` yields, or `None` where the field is absent |
| `Repository.FirstMatch` | redisorm/core.py:141-145 | the index returned is the first whose element satisfies the test, or the length when none does |
| `Repository.StoredEquals` | redisorm/core.py:154 | Python's `==` of a stored field and the searched value: an int never equals a stored string; `None` equals only an absent field; a string equals only itself |
| `Repository.FindByIntegerNeverMatches` | redisorm/core.py:154 | `find_by` with an int value gives `None`, since every stored field is a string |
| `Repository.FindByResult` | redisorm/core.py:147-156 | `find_by` gives `None` without a counter; `FindByLowestMatch`, `FindByNoMatch`, `FindByStopsAtTombstone` and `FindByIntegerNeverMatches` state what it gives otherwise |
| `Repository.FindByLowestMatch` | redisorm/core.py:147-156 | `find_by` gives `load` of the lowest id up to the counter whose stored field equals the value |
| `Repository.FindByNoMatch` | redisorm/core.py:147-156 | `find_by` gives `None` when the counter is absent or no id up to it has a matching stored field |
| `Repository.FindByStopsAtTombstone` | redisorm/core.py:152-155 | when the lowest matching record is tombstoned, `find_by` gives `None`, even if a later record matches |
| `Repository.Persistent.constructor` | redisorm/core.py:63-67 | the repository keeps `prefix`, `key_separator` (default `":"`), `id_count` (default `"__latest__"`) and the given client |
| `Repository.Persistent.SetId` | redisorm/core.py:84-85 | `set_id` SETs the counter key to `str(id)` and changes nothing else |
| `Repository.Persistent.UpdateId` | redisorm/core.py:69-78 | returns the next id, stores it in the counter and assigns it to `obj.id` as an int |
| `Repository.Persistent.Save` | redisorm/core.py:87-102 | without an `id` attribute raises AttributeError and changes nothing; otherwise the store becomes `SavedDb` and `obj.id` its id string |
| `Repository.Persistent.WriteRecord` | redisorm/core.py:96-100 | the HSET/HDEL loop leaves the record hash equal to `WriteColumns` of the old one and no other key changed |
| `Repository.Persistent.Delete` | redisorm/core.py:164-168 | `None` id returns False with no change; an int id raises TypeError; a missing id raises AttributeError; a string id sets only `__deleted__` = "1" and returns HSET's reply |
| `Repository.Persistent.Find` | redisorm/core.py:141-145 | returns the first `load_all` item (`None` for a tombstoned id) for which `cond` is True, or `None` |
| `Repository.Persistent.FindBy` | redisorm/core.py:147-156 | returns `load` of the first id in 0..max_id whose stored field equals the value under Python's `==`, or `None` |
| `Scenario.TwoSavesIssueZeroAndOne` | redisorm/core.py:69-94 | two saves of new instances on an absent counter issue ids "0" and "1" and leave the counter at 1 |
| `Scenario.SaveSaveDeleteFirst` | redisorm/core.py:87-168 | after two saves and a delete of the first: id 0 loads as `None`, id 1 loads the second instance back, `get_max_id` is 1 and the next id is 2 |
| `Scenario.LoadAllOfTwo` | redisorm/core.py:118-128 | with the counter at 1, `load_all` yields `load` of id 0 and then of id 1 |

## Left out

- Construction of the Redis client and its encoding options (redisorm/core.py:67): the client is a constructor argument.
- The hooks `before_save`, `after_save`, `before_load` and `after_load`, and `__str__`/`__repr__`: they do nothing.
- `Column.type` and `Column.default`: they are stored but never read, so a column is only "is a `Column`".
- Generators: `load_all` and `load_all_only_keys` are finite sequences. `find` stops loading at its first match, which is unobservable here because `cond` is a pure function.
- Concurrent writers: the read-then-write race in `update_id` is not modelled; calls are sequential.
- Values other than `None`, int and str (floats, bytes, bools, arbitrary objects) and how the Redis client encodes them; dynamic `getattr`, properties and `del` of attributes.
- `Repository.LastInsertId`: the counter is read with `ParseNat`, which agrees with Python's `int()` on the numerals `set_id` writes for ids 0, 1, 2, ... but reads any other string digit by digit (a non-digit as 0). `int()` differs there: it accepts a sign, surrounding whitespace and `_` between digits (`"-3"`, `" 7"`, `"1_0"`), and raises ValueError on other non-numerals. Such counters only arise from outside writes or `set_id` with a negative id.
- Redis keeps plain keys and hashes in one keyspace and refuses HSET on a key holding a string (WRONGTYPE); the model keeps them in two maps, so a user-chosen id equal to `id_count` is not reported as an error. `get_max_id`'s EXISTS is read as presence among plain keys.
- `find`'s `cond` is a total predicate on the loaded item; a `cond` returning a truthy non-bool (which `is True` rejects) or raising is not modelled.
- `load_all`'s `_range` is a sequence of integers; `reverse` is a bool in both scans, so `if reverse` and `reverse is True` agree.
- `load` takes the key already as a string (its first line applies `str`); callers pass `str` of their ids.
- `delete`'s `False` is modelled as `None` beside HSET's integer reply.
