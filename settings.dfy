/** Settings: a key-value store of JSON values, one entry per key, with
    three defaults an administrator can install. */
module Settings {
  import opened Common
  import opened Domain

  /** Each entry is stored under its own key, as the `by_key` index finds
      it. */
  predicate Keyed(settings: map<string, Setting>) {
    forall k :: k in settings ==> settings[k].key == k
  }

  /** `get`: the entry under the key, if any. */
  function Get(settings: map<string, Setting>, key: string): (r: Option<Setting>)
    ensures r.Some? <==> key in settings
    ensures r.Some? ==> r.value == settings[key]
  {
    if key in settings then Some(settings[key]) else None
  }

  /** `set`: the entry under the key now holds the value, the time and the
      author (an absent author clears the old one); the flag says whether
      an entry was replaced. */
  method Set(db: Db, key: string, value: Json, updatedBy: Option<Id>, now: int) returns (updated: bool)
    requires Keyed(db.settings)
    modifies db`settings
    ensures Keyed(db.settings)
    ensures updated <==> key in old(db.settings)
    ensures db.settings == old(db.settings)[key := Setting(key, value, now, updatedBy)]
  {
    updated := key in db.settings;
    if updated {
      var existing := db.settings[key];
      db.settings := db.settings[key := existing.(value := value, updatedAt := now, updatedBy := updatedBy)];
    } else {
      db.settings := db.settings[key := Setting(key, value, now, updatedBy)];
    }
  }

  /** After `set`, `get` finds exactly what was set, and every other key
      reads as before. */
  lemma SetThenGet(settings: map<string, Setting>, key: string, value: Json, updatedBy: Option<Id>, now: int, other: string)
    ensures Get(settings[key := Setting(key, value, now, updatedBy)], key) == Some(Setting(key, value, now, updatedBy))
    ensures other != key ==> Get(settings[key := Setting(key, value, now, updatedBy)], other) == Get(settings, other)
  {
  }

  datatype RemoveOutcome = RemoveOutcome(success: bool, message: Option<string>)

  /** `remove`: deletes the entry, or reports that there was none. */
  method Remove(db: Db, key: string) returns (r: RemoveOutcome)
    modifies db`settings
    ensures r.success <==> key in old(db.settings)
    ensures !r.success ==> r.message == Some("Setting not found") && db.settings == old(db.settings)
    ensures r.success ==> r.message == None
    ensures db.settings == old(db.settings) - {key}
    ensures Get(db.settings, key) == None
  {
    if key in db.settings {
      db.settings := db.settings - {key};
      return RemoveOutcome(true, None);
    }
    r := RemoveOutcome(false, Some("Setting not found"));
  }

  const WarehouseKey := "warehouse_location"
  const BankKey := "bank_details"
  const ThresholdKey := "low_stock_threshold"

  /** The placeholder warehouse position, to be set by an administrator. */
  const DefaultWarehouse := JObj([("lat", JNum(0.0)), ("lng", JNum(0.0))])
  const DefaultBank := JObj([("bankName", JStr("")), ("accountNumber", JStr("")),
                             ("accountName", JStr("")), ("routingNumber", JStr(""))])
  const DefaultThreshold := JNum(10.0)

  /** Installs `value` under `key` unless the key is taken. */
  function WithDefault(settings: map<string, Setting>, key: string, value: Json, adminId: Id, now: int): map<string, Setting> {
    if key in settings then settings else settings[key := Setting(key, value, now, Some(adminId))]
  }

  /** The table `initializeDefaults` leaves: the three default keys are
      present, those already there untouched, and nothing else changes. */
  function WithDefaults(settings: map<string, Setting>, adminId: Id, now: int): (r: map<string, Setting>)
    ensures r.Keys == settings.Keys + {WarehouseKey, BankKey, ThresholdKey}
    ensures Keyed(settings) ==> Keyed(r)
    ensures forall k :: k in settings ==> r[k] == settings[k]
    ensures WarehouseKey !in settings ==> r[WarehouseKey] == Setting(WarehouseKey, DefaultWarehouse, now, Some(adminId))
    ensures BankKey !in settings ==> r[BankKey] == Setting(BankKey, DefaultBank, now, Some(adminId))
    ensures ThresholdKey !in settings ==> r[ThresholdKey] == Setting(ThresholdKey, DefaultThreshold, now, Some(adminId))
  {
    var s1 := WithDefault(settings, WarehouseKey, DefaultWarehouse, adminId, now);
    var s2 := WithDefault(s1, BankKey, DefaultBank, adminId, now);
    WithDefault(s2, ThresholdKey, DefaultThreshold, adminId, now)
  }

  /** Running `initializeDefaults` again, at any time and by any admin,
      changes nothing. */
  lemma WithDefaultsIdempotent(settings: map<string, Setting>, adminId: Id, now: int, adminId2: Id, now2: int)
    ensures WithDefaults(WithDefaults(settings, adminId, now), adminId2, now2) == WithDefaults(settings, adminId, now)
  {
    var once := WithDefaults(settings, adminId, now);
    var twice := WithDefaults(once, adminId2, now2);
    assert twice.Keys == once.Keys;
  }

  /** `initializeDefaults`: one look-up and at most one insert per key. */
  method InitializeDefaults(db: Db, adminId: Id, now: int)
    modifies db`settings
    ensures db.settings == WithDefaults(old(db.settings), adminId, now)
  {
    if WarehouseKey !in db.settings {
      db.settings := db.settings[WarehouseKey := Setting(WarehouseKey, DefaultWarehouse, now, Some(adminId))];
    }
    if BankKey !in db.settings {
      db.settings := db.settings[BankKey := Setting(BankKey, DefaultBank, now, Some(adminId))];
    }
    if ThresholdKey !in db.settings {
      db.settings := db.settings[ThresholdKey := Setting(ThresholdKey, DefaultThreshold, now, Some(adminId))];
    }
  }
}
