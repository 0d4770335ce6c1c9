/** The profile records of src/js/apis/profiles.ts. The `profiles` object
    store of the `profilesDB` database is a map from keys to values; it
    holds both the profile records (under their names) and the name of the
    active profile (under `activeProfile`), so the two share one key
    space. What a profile switch exports and imports is a parameter or a
    result here: the export format is the obfuscation of the Obfuscation
    module, and IndexedDB, localStorage and cookies are outside the model. */
module Profiles {
  import opened Wrappers

  const ProfileDbName: string := "profilesDB"
  const ActiveKey: string := "activeProfile"

  datatype Profile = Profile(name: string, data: string, date: string)

  /** A stored value: the `activeProfile` entry is a string, a profile an
      object. */
  datatype Value = Text(s: string) | Record(p: Profile)

  type Store = map<string, Value>

  /** JavaScript truthiness of a stored value: only the empty string is
      falsy. */
  predicate Truthy(v: Value) {
    v != Text("")
  }

  /** Why an operation throws. */
  datatype Error =
    | NoSuchProfile(name: string)   // the `Profile "…" does not exist.` error
    | InvalidKey                    // the `activeProfile` entry holds an object, which is no IndexedDB key
    | NotAnObject                   // a property assigned on a string value

  /** What `getActiveProfile` produces. */
  datatype Active = Null | Found(v: Value) | Throws(e: Error)

  // ---------------------------------------------------------------------
  // The operations as functions of the store.

  /** `init` as written: the `onsuccess` handler that would write the
      `activeProfile` entry is replaced by the one `_waitForRequest` installs before the
      request completes, so nothing is written. */
  function InitializedAsWritten(store: Store): (r: Store)
    ensures r == store
  {
    store
  }

  /** `init` as intended: the empty `activeProfile` entry is written when the key is
      unset or holds a falsy value. */
  function Initialized(store: Store): (r: Store)
    ensures ActiveKey in r && Truthy(r[ActiveKey]) == (ActiveKey in store && Truthy(store[ActiveKey]))
    ensures ActiveKey in store && Truthy(store[ActiveKey]) ==> r == store
    ensures !(ActiveKey in store && Truthy(store[ActiveKey])) ==> r == store[ActiveKey := Text("")]
  {
    if ActiveKey !in store || !Truthy(store[ActiveKey]) then store[ActiveKey := Text("")] else store
  }

  /** `init` as written leaves a fresh store without the `activeProfile` entry, where the
      intended `init` writes it. */
  lemma InitNeverWrites()
    ensures ActiveKey !in InitializedAsWritten(map[])
    ensures Initialized(map[]) == map[ActiveKey := Text("")]
  {
  }

  /** `init` as written and as intended differ exactly on a store without
      the `activeProfile` key: a falsy entry can only be `""`, which the
      intended `init` writes again. */
  lemma InitVersionsAgree(store: Store)
    ensures InitializedAsWritten(store) == Initialized(store) <==> ActiveKey in store
  {
    if ActiveKey in store && !Truthy(store[ActiveKey]) {
      assert store[ActiveKey := Text("")] == store;
    }
  }

  /** The intended `init` changes nothing a second time, and no key but the
      `activeProfile` entry. */
  lemma InitIdempotent(store: Store)
    ensures Initialized(Initialized(store)) == Initialized(store)
    ensures forall k :: k in store && k != ActiveKey ==> k in Initialized(store) && Initialized(store)[k] == store[k]
    ensures Initialized(store).Keys == store.Keys + {ActiveKey}
  {
  }

  /** `createProfile` before the optional `setActiveProfile`. */
  function Created(store: Store, name: string, now: string): (r: Store)
    ensures r.Keys == store.Keys + {name}
    ensures r[name] == Record(Profile(name, "", now))
    ensures forall k :: k in store && k != name ==> r[k] == store[k]
  {
    store[name := Record(Profile(name, "", now))]
  }

  /** `getProfile`: the stored value if it is truthy, otherwise null. */
  function Lookup(store: Store, name: string): (r: Option<Value>)
    ensures r.Some? <==> name in store && Truthy(store[name])
    ensures r.Some? ==> r.value == store[name]
  {
    if name in store && Truthy(store[name]) then Some(store[name]) else None
  }

  /** `getProfile` after `createProfile` finds the new empty record, and
      every other name as before. */
  lemma CreatedThenLookup(store: Store, name: string, now: string)
    ensures Lookup(Created(store, name, now), name) == Some(Record(Profile(name, "", now)))
    ensures forall m :: m != name ==> Lookup(Created(store, name, now), m) == Lookup(store, m)
  {
  }

  /** `getActiveProfile`: what it finds is the truthy value stored under the
      name the `activeProfile` entry holds; it throws exactly when that entry
      is an object. */
  function ActiveOf(store: Store): (r: Active)
    ensures r.Found? ==>
      (ActiveKey in store && store[ActiveKey].Text?
       && store[ActiveKey].s in store && store[store[ActiveKey].s] == r.v && Truthy(r.v))
    ensures r.Throws? <==> ActiveKey in store && store[ActiveKey].Record?
    ensures r.Throws? ==> r.e == InvalidKey
  {
    if ActiveKey !in store then Null
    else match store[ActiveKey]
      case Text(n) =>
        if n == "" then Null
        else (match Lookup(store, n) case None => Null case Some(v) => Found(v))
      case Record(_) => Throws(InvalidKey)
  }

  /** `getActiveProfile` returns null when the `activeProfile` entry is missing or empty,
      and otherwise what `getProfile` returns for the name it holds. */
  lemma ActiveOfCases(store: Store)
    ensures ActiveKey !in store ==> ActiveOf(store) == Null
    ensures ActiveKey in store && store[ActiveKey] == Text("") ==> ActiveOf(store) == Null
    ensures ActiveKey in store && store[ActiveKey].Text? && store[ActiveKey].s != "" ==>
      (ActiveOf(store) == Null <==> Lookup(store, store[ActiveKey].s).None?)
      && (ActiveOf(store).Found? ==> Some(ActiveOf(store).v) == Lookup(store, store[ActiveKey].s))
  {
  }

  /** A profile may be named `activeProfile`: creating it overwrites the
      `activeProfile` entry, after which reading the active profile throws. */
  lemma NameSharesActiveKey(store: Store, now: string)
    ensures ActiveOf(Created(store, ActiveKey, now)) == Throws(InvalidKey)
  {
  }

  /** `saveCurrentProfileData`: the export is stored as the data of the
      active profile, under that profile's own `name` field. */
  function Saved(store: Store, exported: string): (r: Result<Store, Error>)
    ensures ActiveOf(store) == Null ==> r == Ok(store)
    ensures ActiveOf(store).Throws? ==> r == Err(ActiveOf(store).e)
    ensures ActiveOf(store).Found? && ActiveOf(store).v.Text? ==> r == Err(NotAnObject)
    ensures ActiveOf(store).Found? && ActiveOf(store).v.Record? ==>
      var p := ActiveOf(store).v.p;
      r == Ok(store[p.name := Record(p.(data := exported))])
  {
    match ActiveOf(store)
    case Null => Ok(store)
    case Throws(e) => Err(e)
    case Found(v) =>
      match v
      case Text(_) => Err(NotAnObject)
      case Record(p) => Ok(store[p.name := Record(p.(data := exported))])
  }

  /** Saving and reading back: when the active record is stored under its
      own name, the active profile then holds the export. */
  lemma SavedReadBack(store: Store, exported: string)
    requires ActiveOf(store).Found? && ActiveOf(store).v.Record?
    requires ActiveOf(store).v.p.name == store[ActiveKey].s
    ensures Saved(store, exported).Ok?
    ensures ActiveOf(Saved(store, exported).value) == Found(Record(ActiveOf(store).v.p.(data := exported)))
  {
  }

  /** A save writes at most one key, the `name` field of the active record,
      and a store without an active profile is left as it is. */
  lemma SavedTouchesOneKey(store: Store, exported: string)
    requires Saved(store, exported).Ok?
    ensures ActiveOf(store) == Null ==> Saved(store, exported).value == store
    ensures ActiveOf(store).Found? ==>
      var n := ActiveOf(store).v.p.name;
      ActiveOf(store).v.Record?
      && Saved(store, exported).value.Keys == store.Keys + {n}
      && forall k :: k in store && k != n ==> Saved(store, exported).value[k] == store[k]
  {
  }

  /** The outcome of `setActiveProfile`: the new store and the argument of
      `importData` (`None` for `undefined`, which `importData` swallows). */
  datatype Switch = Switch(store: Store, imported: Option<string>)

  /** The `data` field of a value read back from the store. */
  function DataOf(v: Value): Option<string> {
    if v.Record? then Some(v.p.data) else None
  }

  /** `setActiveProfile` as written: the profile to import is read before
      the current data is saved. */
  function SwitchedAsWritten(store: Store, name: string, exported: string): (r: Result<Switch, Error>)
    ensures Lookup(store, name).None? ==> r == Err(NoSuchProfile(name))
    ensures r.Ok? ==> Lookup(store, name).Some? && Saved(store, exported).Ok?
    ensures r.Ok? ==> r.value.store == Saved(store, exported).value[ActiveKey := Text(name)]
    ensures r.Ok? ==> r.value.imported == DataOf(Lookup(store, name).value)
  {
    match Lookup(store, name)
    case None => Err(NoSuchProfile(name))
    case Some(profile) =>
      match Saved(store, exported)
      case Err(e) => Err(e)
      case Ok(saved) => Ok(Switch(saved[ActiveKey := Text(name)], DataOf(profile)))
  }

  /** `setActiveProfile` as intended: the imported data is the profile's
      data after the save. */
  function Switched(store: Store, name: string, exported: string): (r: Result<Switch, Error>)
    ensures Lookup(store, name).None? ==> r == Err(NoSuchProfile(name))
    ensures r.Ok? ==> Lookup(store, name).Some? && Saved(store, exported).Ok?
    ensures r.Ok? ==> r.value.store == Saved(store, exported).value[ActiveKey := Text(name)]
    ensures r.Ok? && name in Saved(store, exported).value ==>
      r.value.imported == DataOf(Saved(store, exported).value[name])
  {
    match Lookup(store, name)
    case None => Err(NoSuchProfile(name))
    case Some(_) =>
      match Saved(store, exported)
      case Err(e) => Err(e)
      case Ok(saved) => Ok(Switch(saved[ActiveKey := Text(name)], DataOf(saved[name])))
  }

  /** A successful switch leaves the name as the `activeProfile` entry; a missing
      profile or a failed save writes nothing. */
  lemma SwitchSetsActive(store: Store, name: string, exported: string)
    ensures Switched(store, name, exported).Ok? ==> Switched(store, name, exported).value.store[ActiveKey] == Text(name)
    ensures Switched(store, name, exported).Ok? <==> Lookup(store, name).Some? && Saved(store, exported).Ok?
    ensures Switched(store, name, exported).Ok? <==> SwitchedAsWritten(store, name, exported).Ok?
  {
  }

  /** After a switch, `getActiveProfile` finds the profile switched to, and
      the corrected switch imports exactly its data; a profile named `""` is
      switched to but then reads as no active profile, and one named
      `activeProfile` reads as that name. */
  lemma SwitchedThenActive(store: Store, name: string, exported: string)
    requires Switched(store, name, exported).Ok?
    ensures var r := Switched(store, name, exported).value;
      name != "" && name != ActiveKey ==> ActiveOf(r.store).Found? && r.imported == DataOf(ActiveOf(r.store).v)
    ensures name == "" ==> ActiveOf(Switched(store, name, exported).value.store) == Null
    ensures name == ActiveKey ==> ActiveOf(Switched(store, name, exported).value.store) == Found(Text(ActiveKey))
  {
  }

  /** Switching to another profile imports the same data either way. */
  lemma SwitchToOtherAgrees(store: Store, name: string, exported: string)
    requires ActiveOf(store).Found? && ActiveOf(store).v.Record? && ActiveOf(store).v.p.name != name
    ensures Switched(store, name, exported) == SwitchedAsWritten(store, name, exported)
  {
  }

  /** Re-selecting the active profile: as written it imports the data of
      the previous switch, although the store now holds the fresh export. */
  lemma ReselectImportsStaleData()
    ensures var store := map[ActiveKey := Text("a"), "a" := Record(Profile("a", "old", "d"))];
      && SwitchedAsWritten(store, "a", "new") == Ok(Switch(map[ActiveKey := Text("a"), "a" := Record(Profile("a", "new", "d"))], Some("old")))
      && Switched(store, "a", "new") == Ok(Switch(map[ActiveKey := Text("a"), "a" := Record(Profile("a", "new", "d"))], Some("new")))
  {
    var old_ := Profile("a", "old", "d");
    var store := map[ActiveKey := Text("a"), "a" := Record(old_)];
    assert ActiveKey != "a";
    assert Lookup(store, "a") == Some(Record(old_));
    assert ActiveOf(store) == Found(Record(old_));
    var saved := store["a" := Record(old_.(data := "new"))];
    assert Saved(store, "new") == Ok(saved);
    assert saved[ActiveKey := Text("a")] == map[ActiveKey := Text("a"), "a" := Record(Profile("a", "new", "d"))];
  }

  /** Re-selecting the active profile imports exactly what was just saved. */
  lemma ReselectImportsExport(store: Store, exported: string)
    requires ActiveOf(store).Found? && ActiveOf(store).v.Record?
    requires ActiveOf(store).v.p.name == store[ActiveKey].s && ActiveKey != store[ActiveKey].s
    ensures Switched(store, store[ActiveKey].s, exported).Ok?
    ensures Switched(store, store[ActiveKey].s, exported).value.imported == Some(exported)
  {
  }

  /** The databases `clearAllData` keeps: `profilesDB` and nameless ones. */
  function Kept(names: seq<string>): (r: seq<string>)
    ensures |r| <= |names|
    ensures forall i :: 0 <= i < |r| ==> IsKept(r[i])
  {
    if names == [] then []
    else (if IsKept(names[0]) then [names[0]] else []) + Kept(names[1..])
  }

  predicate IsKept(name: string) {
    name == ProfileDbName || name == ""
  }

  /** Every database but `profilesDB` (and nameless ones) is deleted. */
  lemma {:induction false} KeptExactly(names: seq<string>)
    ensures |Kept(names)| <= |names|
    ensures forall n :: n in Kept(names) <==> n in names && IsKept(n)
  {
    if names != [] {
      KeptExactly(names[1..]);
      assert names == [names[0]] + names[1..];
    }
  }

  /** The survivors keep the order `indexedDB.databases()` gave them in:
      filtering two runs of names is filtering their concatenation. */
  lemma {:induction false} KeptAppend(a: seq<string>, b: seq<string>)
    ensures Kept(a + b) == Kept(a) + Kept(b)
  {
    if a == [] {
      assert a + b == b;
    } else {
      var ab := a + b;
      assert ab[0] == a[0];
      assert ab[1..] == a[1..] + b;
      KeptAppend(a[1..], b);
      var head := if IsKept(a[0]) then [a[0]] else [];
      calc {
        Kept(ab);
        head + Kept(a[1..] + b);
        head + (Kept(a[1..]) + Kept(b));
        (head + Kept(a[1..])) + Kept(b);
        Kept(a) + Kept(b);
      }
    }
  }

  // ---------------------------------------------------------------------
  // The API object over its store.

  class ProfilesAPI {
    var store: Store
    /** The names `indexedDB.databases()` reports. */
    var databases: seq<string>

    constructor (initialStore: Store, initialDatabases: seq<string>)
      ensures store == initialStore && databases == initialDatabases
    {
      store := initialStore;
      databases := initialDatabases;
    }

    /** `init` as written. */
    method InitAsWritten()
      modifies this
      ensures store == InitializedAsWritten(old(store)) && databases == old(databases)
    {
    }

    /** `init` with the write it intends. */
    method Init()
      modifies this
      ensures store == Initialized(old(store)) && databases == old(databases)
    {
      var current := Lookup(store, ActiveKey);
      if current.None? {
        store := store[ActiveKey := Text("")];
      }
    }

    function GetProfile(name: string): (r: Option<Value>)
      reads this
      ensures r == Lookup(store, name)
    {
      Lookup(store, name)
    }

    function GetActiveProfile(): (r: Active)
      reads this
      ensures r == ActiveOf(store)
    {
      ActiveOf(store)
    }

    method SaveCurrentProfileData(exported: string) returns (r: Result<(), Error>)
      modifies this
      ensures r.Ok? <==> Saved(old(store), exported).Ok?
      ensures r.Ok? ==> store == Saved(old(store), exported).value
      ensures r.Err? ==> store == old(store) && r.error == Saved(old(store), exported).error
      ensures databases == old(databases)
    {
      var active := GetActiveProfile();
      match active {
        case Null =>
          return Ok(());
        case Throws(e) =>
          return Err(e);
        case Found(v) =>
          if v.Text? {
            return Err(NotAnObject);
          }
          var p := v.p.(data := exported);
          store := store[p.name := Record(p)];
          return Ok(());
      }
    }

    /** `clearAllData`, its loop over the database names. */
    method ClearAllData()
      modifies this
      ensures databases == Kept(old(databases)) && store == old(store)
    {
      var kept: seq<string> := [];
      var i := 0;
      while i < |databases|
        invariant 0 <= i <= |databases|
        invariant databases == old(databases) && store == old(store)
        invariant Kept(databases) == kept + Kept(databases[i..])
      {
        assert databases[i..][1..] == databases[i + 1..];
        var name := databases[i];
        if IsKept(name) {
          kept := kept + [name];
        }
        i := i + 1;
      }
      databases := kept;
    }

    /** `setActiveProfile` (as intended); `Ok` carries what is imported. */
    method SetActiveProfile(name: string, exported: string) returns (r: Result<Option<string>, Error>)
      modifies this
      ensures Switched(old(store), name, exported).Err? ==>
        r.Err? && r.error == Switched(old(store), name, exported).error
        && store == old(store) && databases == old(databases)
      ensures Switched(old(store), name, exported).Ok? ==>
        r == Ok(Switched(old(store), name, exported).value.imported)
        && store == Switched(old(store), name, exported).value.store
        && databases == Kept(old(databases))
    {
      var profile := GetProfile(name);
      if profile.None? {
        return Err(NoSuchProfile(name));
      }
      var saved := SaveCurrentProfileData(exported);
      if saved.Err? {
        return Err(saved.error);
      }
      var imported := DataOf(store[name]);
      store := store[ActiveKey := Text(name)];
      ClearAllData();
      return Ok(imported);
    }

    /** `createProfile`; with `autoSelect` the new profile is made active. */
    method CreateProfile(name: string, autoSelect: bool, now: string, exported: string)
      returns (r: Result<Profile, Error>)
      modifies this
      ensures !autoSelect ==> r == Ok(Profile(name, "", now)) && store == Created(old(store), name, now)
                              && databases == old(databases)
      ensures autoSelect && Switched(Created(old(store), name, now), name, exported).Ok? ==>
        r == Ok(Profile(name, "", now))
        && store == Switched(Created(old(store), name, now), name, exported).value.store
        && databases == Kept(old(databases))
      ensures autoSelect && Switched(Created(old(store), name, now), name, exported).Err? ==>
        r.Err? && r.error == Switched(Created(old(store), name, now), name, exported).error
        && store == Created(old(store), name, now) && databases == old(databases)
    {
      var profile := Profile(name, "", now);
      store := store[name := Record(profile)];
      if autoSelect {
        var switched := SetActiveProfile(name, exported);
        if switched.Err? {
          return Err(switched.error);
        }
      }
      return Ok(profile);
    }
  }
}
