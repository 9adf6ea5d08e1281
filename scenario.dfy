/** A run of the repository over several calls: two new instances saved
    while the counter is absent, then the first one deleted. */
module Scenario {
  import opened Wrappers
  import opened Numerals
  import opened Redis
  import opened Entities
  import opened Repository

  /** Two saves of new instances (falsy `id`) on an absent counter file them
      under ids 0 and 1 and leave the counter at 1. */
  lemma {:induction false} TwoSavesIssueZeroAndOne(cfg: Config, db: Db, kind: EntityType, a: Attrs, b: Attrs)
    requires LastInsertId(cfg, db, kind.name) == None
    requires "id" in a && forall c | c in kind.columns :: c in a
    requires "id" in b && forall c | c in kind.columns :: c in b
    requires !Truthy(a["id"]) && !Truthy(b["id"])
    ensures var db1 := SavedDb(cfg, db, kind, a);
      && SavedId(cfg, db, kind.name, a["id"]) == "0"
      && SavedId(cfg, db1, kind.name, b["id"]) == "1"
      && LastInsertId(cfg, SavedDb(cfg, db1, kind, b), kind.name) == Some(1)
  {
    var db1 := SavedDb(cfg, db, kind, a);
    SaveAssignsId(cfg, db, kind, a);
    SaveAssignsId(cfg, db1, kind, b);
    assert NatToString(0) == "0";
    assert NatToString(1) == "1";
  }

  /** After two such saves and a `delete` of the first instance (id "0"):
      `load` of id 0 gives `None`, `load` of id 1 gives the second instance
      back, and `get_max_id` is 1, so the next new instance gets id 2. */
  lemma {:induction false} SaveSaveDeleteFirst(cfg: Config, db: Db, kind: EntityType, a: Attrs, b: Attrs)
    requires WellFormed(kind)
    requires LastInsertId(cfg, db, kind.name) == None
    requires "id" in a && forall c | c in kind.columns :: c in a
    requires "id" in b && forall c | c in kind.columns :: c in b
    requires !Truthy(a["id"]) && !Truthy(b["id"])
    requires !Tombstoned(HashAt(db.hashes, Key(cfg, kind.name, "1")))
    ensures var db1 := SavedDb(cfg, db, kind, a);
      var db3 := DeletedDb(cfg, SavedDb(cfg, db1, kind, b), kind.name, "0");
      && Load(cfg, db3, kind, "0") == None
      && Load(cfg, db3, kind, "1") == Some(Reloaded(kind.columns, SavedAttrs(cfg, db1, kind, b)))
      && LastInsertId(cfg, db3, kind.name) == Some(1)
      && NextId(LastInsertId(cfg, db3, kind.name)) == 2
  {
    var db1 := SavedDb(cfg, db, kind, a);
    var db2 := SavedDb(cfg, db1, kind, b);
    TwoSavesIssueZeroAndOne(cfg, db, kind, a, b);
    KeyInjective(cfg, kind.name, "0", "1");
    SaveWritesRecord(cfg, db, kind, a);
    assert HashAt(db1.hashes, Key(cfg, kind.name, "1")) == HashAt(db.hashes, Key(cfg, kind.name, "1"));
    SaveLoadRoundTrip(cfg, db1, kind, b);
    DeleteHidesRecord(cfg, db2, kind, "0");
  }

  /** With the counter at 1, `load_all` yields `load` of id 0, then of id 1:
      after the run above, a gap followed by the second instance. */
  lemma LoadAllOfTwo(cfg: Config, db: Db, kind: EntityType)
    requires LastInsertId(cfg, db, kind.name) == Some(1)
    ensures LoadAll(cfg, db, kind, None, false) == [Load(cfg, db, kind, "0"), Load(cfg, db, kind, "1")]
  {
    LoadAllShape(cfg, db, kind, "id", false);
    assert NatToString(0) == "0" && NatToString(1) == "1";
  }
}
