/**
 * The per-guild settings record (`Settings`) and the manager that owns
 * every record (`NightFuryManager`) of the older Java tree.
 *
 * The JSON object behind a record becomes one field per key. Keys of the
 * case map are the case numbers themselves; the source stores them as
 * their decimal strings. The manager's two files (the settings file and
 * its backup) become snapshots of every record's data. The executor that
 * runs the flush 30 seconds later becomes a count of scheduled flushes.
 */
module Persistence {
  import opened Util

  // ------------------------------------------------------------ values

  /** One entry of the case map: `mod_id`, `message_id` and `reason`. */
  datatype CaseEntry = CaseEntry(modId: int, messageId: int, reason: string)

  /** `new Case(JSONObject)` throws unless both ids are non-zero. */
  predicate Readable(c: CaseEntry)
  {
    c.modId != 0 && c.messageId != 0
  }

  /** `Case.toJSON` writes a null reason as the text `"null"`. */
  function ReasonText(reason: Option<string>): (t: string)
    ensures reason.Some? ==> t == reason.value
    ensures reason.None? ==> t == "null"
  {
    if reason.None? then "null" else reason.value
  }

  /** An open case is one whose reason was never set. */
  predicate IsOpenFor(c: CaseEntry, modId: int)
  {
    c.modId == modId && c.reason == "null"
  }

  /** Everything a record holds, as it is written to the settings file. */
  datatype SettingsData = SettingsData(
    prefixes: seq<string>,
    guildId: int,
    modId: int,
    modLogId: int,
    mutedId: int,
    muted: seq<int>,
    caseNumber: int,
    cases: map<int, CaseEntry>,
    roleMe: seq<int>,
    colorMe: seq<int>)

  /** The JSON object handed to the constructor: any key may be missing. */
  datatype StoredSettings = StoredSettings(
    prefixes: Option<seq<string>>,
    guildId: Option<int>,
    modId: Option<int>,
    modLogId: Option<int>,
    mutedId: Option<int>,
    muted: Option<seq<int>>,
    caseNumber: Option<int>,
    cases: Option<map<int, CaseEntry>>,
    roleMe: Option<seq<int>>,
    colorMe: Option<seq<int>>)

  /** `new JSONObject()`: no key present. */
  const EmptyJson: StoredSettings :=
    StoredSettings(None, None, None, None, None, None, None, None, None, None)

  const DEFAULT_PREFIX: string := "|"

  function OrElse<T>(o: Option<T>, d: T): T
  {
    if o.Some? then o.value else d
  }

  /** The constructor's defaults, applied only to the keys that are absent. */
  function WithDefaults(id: int, j: StoredSettings): SettingsData
  {
    SettingsData(
      OrElse(j.prefixes, [DEFAULT_PREFIX]),
      OrElse(j.guildId, id),
      OrElse(j.modId, 0),
      OrElse(j.modLogId, 0),
      OrElse(j.mutedId, 0),
      OrElse(j.muted, []),
      OrElse(j.caseNumber, 0),
      OrElse(j.cases, map[]),
      OrElse(j.roleMe, []),
      OrElse(j.colorMe, []))
  }

  /** The JSON object a record writes: every key present. */
  function ToStored(d: SettingsData): StoredSettings
  {
    StoredSettings(Some(d.prefixes), Some(d.guildId), Some(d.modId), Some(d.modLogId),
      Some(d.mutedId), Some(d.muted), Some(d.caseNumber), Some(d.cases),
      Some(d.roleMe), Some(d.colorMe))
  }

  /** The record `fullReset` restores (the guild id key is kept). */
  function ResetData(d: SettingsData): SettingsData
  {
    SettingsData([DEFAULT_PREFIX], d.guildId, 0, 0, 0, [], 0, map[], [], [])
  }

  /** Case numbers run densely from 1 to the counter. */
  ghost predicate Dense(cases: map<int, CaseEntry>, caseNumber: int)
  {
    caseNumber >= 0 && forall k :: k in cases <==> 1 <= k <= caseNumber
  }

  /** The invariants the mutators keep: set-like lists and dense cases. */
  ghost predicate CleanData(d: SettingsData)
  {
    NoDups(d.muted) && NoDups(d.roleMe) && NoDups(d.colorMe) && Dense(d.cases, d.caseNumber)
  }

  lemma DenseSize(cases: map<int, CaseEntry>, n: int)
    requires Dense(cases, n)
    ensures |cases| == n
    decreases n
  {
    if n > 0 {
      var rest := cases - {n};
      assert n in cases;
      assert rest.Keys == cases.Keys - {n};
      assert |rest.Keys| == |cases.Keys| - 1;
      assert Dense(rest, n - 1);
      DenseSize(rest, n - 1);
    } else {
      assert forall k :: k in cases ==> 1 <= k <= 0;
      assert cases == map[];
    }
  }

  /** A record saved to the file and read back by the constructor is the same record. */
  lemma ReloadKeepsData(id: int, d: SettingsData)
    ensures WithDefaults(id, ToStored(d)) == d
  {
  }

  /** A fresh record has the prefix `|`, no ids set and satisfies every invariant. */
  lemma DefaultsAreClean(id: int)
    ensures var d := WithDefaults(id, EmptyJson);
      CleanData(d) && d.prefixes == [DEFAULT_PREFIX] && d.guildId == id
      && d.modId == 0 && d.modLogId == 0 && d.mutedId == 0
  {
    var d := WithDefaults(id, EmptyJson);
    assert d.cases == map[] && d.caseNumber == 0;
  }

  lemma ResetIsClean(d: SettingsData)
    ensures CleanData(ResetData(d))
    ensures ResetData(d) == WithDefaults(d.guildId, EmptyJson)
  {
  }

  /** Index of the first prefix equal to `p` ignoring case, or -1. */
  function IndexOfIgnoreCase(ps: seq<string>, p: string): (r: int)
    ensures -1 <= r < |ps|
    ensures r >= 0 ==> EqIgnoreCase(ps[r], p)
    ensures forall k :: 0 <= k < |ps| && (r == -1 || k < r) ==> !EqIgnoreCase(ps[k], p)
  {
    if ps == [] then -1
    else if EqIgnoreCase(ps[0], p) then 0
    else var k := IndexOfIgnoreCase(ps[1..], p); if k == -1 then -1 else k + 1
  }

  // ------------------------------------------------- id-list reference

  /**
   * What `for (i = 0; i < a.length(); i++) if (a.getLong(i) == x) a.remove(i);`
   * leaves: each match is removed, and the element that slides into its
   * place is skipped.
   */
  function SkipRemoved(l: seq<int>, x: int): seq<int>
    decreases |l|
  {
    if l == [] then []
    else if l[0] != x then [l[0]] + SkipRemoved(l[1..], x)
    else if |l| == 1 then []
    else [l[1]] + SkipRemoved(l[2..], x)
  }

  /** `l` without `x`, keeping the order of the rest. */
  function Without(l: seq<int>, x: int): (r: seq<int>)
    ensures x !in r
    ensures forall y :: y in r <==> y in l && y != x
  {
    if l == [] then []
    else if l[0] == x then Without(l[1..], x)
    else [l[0]] + Without(l[1..], x)
  }

  lemma {:induction false} NoDupsTail(l: seq<int>)
    requires l != [] && NoDups(l)
    ensures NoDups(l[1..]) && l[0] !in l[1..]
  {
    assert forall j :: 1 <= j < |l| ==> l[0] != l[j];
    assert forall i, j :: 0 <= i < j < |l| - 1 ==> l[1..][i] == l[i + 1] && l[1..][j] == l[j + 1];
  }

  lemma {:induction false} WithoutAbsent(l: seq<int>, x: int)
    requires x !in l
    ensures Without(l, x) == l
    decreases |l|
  {
    if l != [] {
      assert l[1..] == l[1..];
      assert x !in l[1..];
      WithoutAbsent(l[1..], x);
    }
  }

  lemma {:induction false} SkipRemovedAbsent(l: seq<int>, x: int)
    requires x !in l
    ensures SkipRemoved(l, x) == l
    decreases |l|
  {
    if l != [] {
      assert x !in l[1..];
      SkipRemovedAbsent(l[1..], x);
    }
  }

  /** On a duplicate-free list the skip loop removes exactly `x`. */
  lemma {:induction false} SkipRemovedIsWithout(l: seq<int>, x: int)
    requires NoDups(l)
    ensures SkipRemoved(l, x) == Without(l, x)
    decreases |l|
  {
    if l != [] {
      NoDupsTail(l);
      if l[0] != x {
        SkipRemovedIsWithout(l[1..], x);
      } else if |l| == 1 {
      } else {
        var t := l[1..];
        assert x !in t;
        WithoutAbsent(t, x);
        NoDupsTail(t);
        assert t[0] == l[1] && t[1..] == l[2..];
        assert x !in l[2..];
        SkipRemovedAbsent(l[2..], x);
        assert SkipRemoved(l, x) == [l[1]] + l[2..] == t;
      }
    }
  }

  /** `[x, x]` keeps one `x`: the loop only removes every match when the list has no duplicates. */
  lemma SkipRemovedKeepsSecondDuplicate(x: int)
    ensures SkipRemoved([x, x], x) == [x]
  {
    assert [x, x][1..] == [x];
  }

  lemma {:induction false} WithoutKeepsNoDups(l: seq<int>, x: int)
    requires NoDups(l)
    ensures NoDups(Without(l, x))
    decreases |l|
  {
    if l != [] {
      NoDupsTail(l);
      WithoutKeepsNoDups(l[1..], x);
      var w := Without(l[1..], x);
      assert l[0] !in w;
    }
  }

  lemma AppendKeepsNoDups(l: seq<int>, x: int)
    requires NoDups(l) && x !in l
    ensures NoDups(l + [x])
  {
  }

  /** What `addMutes` appends: each id not yet present, in order. */
  function AddAllNew(l: seq<int>, ids: seq<int>): seq<int>
    decreases |ids|
  {
    if ids == [] then l
    else AddAllNew(if ids[0] in l then l else l + [ids[0]], ids[1..])
  }

  /** `addMutes` never introduces a duplicate and ends holding every id given. */
  lemma {:induction false} AddAllNewProps(l: seq<int>, ids: seq<int>)
    requires NoDups(l)
    ensures NoDups(AddAllNew(l, ids))
    ensures forall y :: y in AddAllNew(l, ids) <==> y in l || y in ids
    decreases |ids|
  {
    if ids != [] {
      var l' := if ids[0] in l then l else l + [ids[0]];
      if ids[0] !in l {
        AppendKeepsNoDups(l, ids[0]);
      }
      AddAllNewProps(l', ids[1..]);
      assert forall y :: y in ids <==> y == ids[0] || y in ids[1..];
    }
  }

  // ------------------------------------------------------ list loops

  /** The `isMuted` / `isRoleMe` / `isColorme` scan. */
  method ContainsId(a: seq<int>, x: int) returns (found: bool)
    ensures found <==> x in a
  {
    if |a| == 0 {
      return false;
    }
    var i := 0;
    while i < |a|
      invariant 0 <= i <= |a|
      invariant x !in a[..i]
    {
      if a[i] == x {
        return true;
      }
      assert a[..i + 1] == a[..i] + [a[i]];
      i := i + 1;
    }
    assert a[..i] == a;
    return false;
  }

  /** The removal loop of `removeMute` / `removeRoleMe` / `removeColorme`. */
  method SkipRemove(a: seq<int>, x: int) returns (r: seq<int>)
    ensures r == SkipRemoved(a, x)
  {
    r := a;
    var i := 0;
    while i < |r|
      invariant 0 <= i <= |r|
      invariant SkipSoFar(a, x, r, i)
    {
      if r[i] == x {
        if i + 1 == |r| {
          SkipLast(a, x, r, i);
          r := r[..i];
          return;
        }
        SkipMatch(a, x, r, i);
        r := r[..i] + r[i + 1..];
      } else {
        SkipOther(a, x, r, i);
      }
      i := i + 1;
    }
    assert r[i..] == [];
    assert r[..i] == r;
  }

  /** The items before `i` are final and the items from `i` on are still to be scanned. */
  predicate SkipSoFar(a: seq<int>, x: int, r: seq<int>, i: nat)
    requires i <= |r|
  {
    r[..i] + SkipRemoved(r[i..], x) == SkipRemoved(a, x)
  }

  /** A match at the end is dropped. */
  lemma SkipLast(a: seq<int>, x: int, r: seq<int>, i: nat)
    requires i + 1 == |r| && r[i] == x && SkipSoFar(a, x, r, i)
    ensures r[..i] == SkipRemoved(a, x)
  {
    assert SkipRemoved(r[i..], x) == [];
  }

  /** A match before the end is dropped and the next item is kept unscanned. */
  lemma SkipMatch(a: seq<int>, x: int, r: seq<int>, i: nat)
    requires i + 1 < |r| && r[i] == x && SkipSoFar(a, x, r, i)
    ensures SkipSoFar(a, x, r[..i] + r[i + 1..], i + 1)
  {
    var next := r[..i] + r[i + 1..];
    assert r[i..][1] == r[i + 1] && r[i..][2..] == r[i + 2..];
    assert SkipRemoved(r[i..], x) == [r[i + 1]] + SkipRemoved(r[i + 2..], x);
    assert next[..i + 1] == r[..i] + [r[i + 1]];
    assert next[i + 1..] == r[i + 2..];
  }

  /** Any other item is kept. */
  lemma SkipOther(a: seq<int>, x: int, r: seq<int>, i: nat)
    requires i < |r| && r[i] != x && SkipSoFar(a, x, r, i)
    ensures SkipSoFar(a, x, r, i + 1)
  {
    assert r[i..][1..] == r[i + 1..];
    assert r[..i + 1] == r[..i] + [r[i]];
  }

  // -------------------------------------------------------- the manager

  class NightFuryManager {
    /** `settingsMap`, keyed by guild id. */
    var settingsMap: map<int, Settings>
    /** `setToWrite`: a flush is pending or a failed one left it set. */
    var setToWrite: bool
    /** Flushes handed to the executor and not yet run. */
    var scheduled: nat
    /** What the settings file and its backup hold. */
    var file: map<int, SettingsData>
    var backup: map<int, SettingsData>

    constructor ()
      ensures settingsMap == map[] && !setToWrite && scheduled == 0
      ensures file == map[] && backup == map[]
    {
      settingsMap := map[];
      setToWrite := false;
      scheduled := 0;
      file := map[];
      backup := map[];
    }

    /** Every record is filed under its own id and belongs to this manager. */
    predicate Valid()
      reads this
    {
      forall k :: k in settingsMap ==> settingsMap[k].id == k && settingsMap[k].manager == this
    }

    /** The debounce invariant: at most one flush is scheduled, and only while the flag is set. */
    predicate Debounced()
      reads this
    {
      scheduled <= 1 && (scheduled == 1 ==> setToWrite)
    }

    /** What `overwrite` writes: every record's data under its key. */
    function Snapshot(): map<int, SettingsData>
      reads this, settingsMap.Values
    {
      map k | k in settingsMap :: settingsMap[k].Data()
    }

    /** The effect of `save()`: the flag is set, and a flush is scheduled iff it was clear. */
    twostate predicate Saved()
      reads this
    {
      setToWrite
      && scheduled == old(scheduled) + (if old(setToWrite) then 0 else 1)
      && file == old(file) && backup == old(backup)
    }

    /** The effect of `put(s)`: `s` is filed under its id, then `save()`. */
    twostate predicate Upserted(new s: Settings)
      reads this
    {
      settingsMap == old(settingsMap)[s.id := s] && Saved()
    }

    /** Any number of `put(s)` calls, none at all included. */
    twostate predicate PutsOf(new s: Settings)
      reads this
    {
      (settingsMap == old(settingsMap) || settingsMap == old(settingsMap)[s.id := s])
      && file == old(file) && backup == old(backup)
      && ((setToWrite == old(setToWrite) && scheduled == old(scheduled)) || Saved())
    }

    /** `save()`. */
    method Save()
      modifies this
      ensures settingsMap == old(settingsMap) && Saved()
      ensures old(Debounced()) ==> Debounced()
    {
      if !setToWrite {
        setToWrite := true;
        scheduled := scheduled + 1;
      }
    }

    /** `put(settings)`: upsert by id, then save. */
    method Put(s: Settings)
      modifies this
      ensures Upserted(s)
      ensures old(Valid()) && s.manager == this ==> Valid()
      ensures old(Debounced()) ==> Debounced()
    {
      settingsMap := settingsMap[s.id := s];
      Save();
    }

    /** `remove(guildId)`: delete by id, then save. */
    method Remove(guildId: int)
      modifies this
      ensures settingsMap == old(settingsMap) - {guildId} && Saved()
      ensures old(Valid()) ==> Valid()
      ensures old(Debounced()) ==> Debounced()
    {
      settingsMap := settingsMap - {guildId};
      Save();
    }

    predicate HasId(guildId: int)
      reads this
    {
      guildId in settingsMap
    }

    /** `getSettingsById`: the record, or `IllegalArgumentException` for an unknown id. */
    function GetSettingsById(guildId: int): (r: Result<Settings>)
      reads this
      ensures r.Ok? <==> guildId in settingsMap
      ensures r.Ok? ==> r.value == settingsMap[guildId]
    {
      if guildId in settingsMap then Ok(settingsMap[guildId])
      else Err("IllegalArgumentException")
    }

    /** `createSettings`: a default record for a new id; a known id throws. */
    method CreateSettings(guildId: int) returns (r: Result<Settings>)
      modifies this
      ensures old(guildId in settingsMap) ==> r.Err? && unchanged(this)
      ensures !old(guildId in settingsMap) ==>
        r.Ok? && fresh(r.value) && r.value.id == guildId && r.value.manager == this
        && r.value.Data() == WithDefaults(guildId, EmptyJson) && Upserted(r.value)
      ensures old(Valid()) ==> Valid()
      ensures old(Debounced()) ==> Debounced()
    {
      if guildId in settingsMap {
        return Err("IllegalArgumentException");
      }
      var s := new Settings(this, guildId, EmptyJson);
      Put(s);
      return Ok(s);
    }

    /** `removeSettings`: drops a known id; an unknown id throws. */
    method RemoveSettings(guildId: int) returns (r: Result<bool>)
      modifies this
      ensures old(guildId in settingsMap) ==> r == Ok(true) && settingsMap == old(settingsMap) - {guildId} && Saved()
      ensures !old(guildId in settingsMap) ==> r.Err? && unchanged(this)
      ensures old(Valid()) ==> Valid()
      ensures old(Debounced()) ==> Debounced()
    {
      if guildId !in settingsMap {
        return Err("IllegalArgumentException");
      }
      Remove(guildId);
      return Ok(true);
    }

    /**
     * The `overwrite` task: write the snapshot, copy it to the backup and
     * only then clear the flag. A failed write or copy is caught and logged,
     * and the flag stays set.
     */
    method Overwrite(writeOk: bool, copyOk: bool)
      modifies this
      ensures file == if writeOk then old(Snapshot()) else old(file)
      ensures backup == if writeOk && copyOk then old(Snapshot()) else old(backup)
      ensures setToWrite == (old(setToWrite) && !(writeOk && copyOk))
      ensures settingsMap == old(settingsMap) && scheduled == old(scheduled)
      ensures Snapshot() == old(Snapshot())
    {
      var snapshot := Snapshot();
      if writeOk {
        file := snapshot;
        if copyOk {
          backup := file;
          setToWrite := false;
        }
      }
    }

    /** The executor running a flush that `save()` scheduled. */
    method RunScheduled(writeOk: bool, copyOk: bool)
      requires scheduled > 0
      modifies this
      ensures scheduled == old(scheduled) - 1
      ensures file == if writeOk then old(Snapshot()) else old(file)
      ensures backup == if writeOk && copyOk then old(Snapshot()) else old(backup)
      ensures setToWrite == (old(setToWrite) && !(writeOk && copyOk))
      ensures settingsMap == old(settingsMap)
      ensures old(Debounced()) ==> Debounced()
    {
      scheduled := scheduled - 1;
      Overwrite(writeOk, copyOk);
    }

    /** The flush as evidently intended: the flag is cleared however the write ends. */
    method OverwriteCorrected(writeOk: bool, copyOk: bool)
      modifies this
      ensures file == if writeOk then old(Snapshot()) else old(file)
      ensures backup == if writeOk && copyOk then old(Snapshot()) else old(backup)
      ensures !setToWrite
      ensures settingsMap == old(settingsMap) && scheduled == old(scheduled)
    {
      var snapshot := Snapshot();
      if writeOk {
        file := snapshot;
        if copyOk {
          backup := file;
        }
      }
      setToWrite := false;
    }

    method RunScheduledCorrected(writeOk: bool, copyOk: bool)
      requires scheduled > 0
      modifies this
      ensures scheduled == old(scheduled) - 1 && !setToWrite
      ensures settingsMap == old(settingsMap)
      ensures old(Debounced()) ==> Debounced()
    {
      scheduled := scheduled - 1;
      OverwriteCorrected(writeOk, copyOk);
    }

    /**
     * The `MODERATOR` category: true in a private channel; otherwise the
     * guild's record must exist (else `getSettingsById` throws) and have a
     * mod role, and the member must be an administrator (or owner) or hold
     * that role.
     */
    function ModeratorTest(e: CategoryEvent): (r: Result<bool>)
      reads this, settingsMap.Values
      ensures e.isPrivate ==> r == Ok(true)
      ensures !e.isPrivate && e.guildId !in settingsMap ==> r.Err?
      ensures !e.isPrivate && e.guildId in settingsMap && settingsMap[e.guildId].modId == 0 ==> r == Ok(false)
      ensures !e.isPrivate && e.guildId in settingsMap && settingsMap[e.guildId].modId != 0 ==>
        r == Ok(AdministratorTest(e) || (settingsMap[e.guildId].modId in e.guildRoles && settingsMap[e.guildId].modId in e.memberRoles))
    {
      if e.isPrivate then Ok(true)
      else if e.guildId !in settingsMap then Err("IllegalArgumentException")
      else
        var modId := settingsMap[e.guildId].modId;
        if modId == 0 then Ok(false)
        else Ok(AdministratorTest(e) || (modId in e.guildRoles && modId in e.memberRoles))
    }
  }

  /** What the category predicates look at in a command event. */
  datatype CategoryEvent = CategoryEvent(
    isPrivate: bool,
    isBotOwner: bool,
    isCoOwner: bool,
    isGuildOwner: bool,
    hasAdministrator: bool,
    guildId: int,
    guildRoles: set<int>,
    memberRoles: set<int>)

  /** The `OWNER` category. */
  predicate OwnerTest(e: CategoryEvent)
  {
    e.isBotOwner || e.isCoOwner
  }

  /** The `SERVER_OWNER` category. */
  predicate ServerOwnerTest(e: CategoryEvent)
  {
    e.isPrivate || OwnerTest(e) || e.isGuildOwner
  }

  /** The `ADMINISTRATOR` category. */
  predicate AdministratorTest(e: CategoryEvent)
  {
    e.isPrivate || ServerOwnerTest(e) || e.hasAdministrator
  }

  /** Each category admits everyone the one above it admits. */
  lemma CategoriesNest(e: CategoryEvent)
    ensures OwnerTest(e) ==> ServerOwnerTest(e)
    ensures ServerOwnerTest(e) ==> AdministratorTest(e)
  {
  }

  // --------------------------------------------------------- the record

  class Settings {
    const manager: NightFuryManager
    const id: int
    var prefixes: seq<string>
    var guildId: int
    var modId: int
    var modLogId: int
    var mutedId: int
    var muted: seq<int>
    var caseNumber: int
    var cases: map<int, CaseEntry>
    var roleMe: seq<int>
    var colorMe: seq<int>

    function Data(): SettingsData
      reads this
    {
      SettingsData(prefixes, guildId, modId, modLogId, mutedId, muted, caseNumber, cases, roleMe, colorMe)
    }

    ghost predicate Clean()
      reads this
    {
      CleanData(Data())
    }

    /** Fills in only the keys the JSON object lacks. */
    constructor (manager: NightFuryManager, id: int, json: StoredSettings)
      ensures this.manager == manager && this.id == id
      ensures Data() == WithDefaults(id, json)
    {
      this.manager := manager;
      this.id := id;
      prefixes := OrElse(json.prefixes, [DEFAULT_PREFIX]);
      guildId := OrElse(json.guildId, id);
      modId := OrElse(json.modId, 0);
      modLogId := OrElse(json.modLogId, 0);
      mutedId := OrElse(json.mutedId, 0);
      muted := OrElse(json.muted, []);
      caseNumber := OrElse(json.caseNumber, 0);
      cases := OrElse(json.cases, map[]);
      roleMe := OrElse(json.roleMe, []);
      colorMe := OrElse(json.colorMe, []);
    }

    /** `save()`. */
    method Save()
      modifies manager
      ensures manager.Upserted(this)
    {
      manager.Put(this);
    }

    // ---------------------------------------------------------- prefixes

    /** `addPrefix`: refuses a prefix equal to one present ignoring case, else appends it. */
    method AddPrefix(prefix: string) returns (added: bool)
      modifies this, manager
      ensures added <==> forall k :: 0 <= k < |old(prefixes)| ==> !EqIgnoreCase(old(prefixes)[k], prefix)
      ensures added ==> Data() == old(Data()).(prefixes := old(prefixes) + [prefix]) && manager.Upserted(this)
      ensures !added ==> unchanged(this, manager)
    {
      var i := 0;
      while i < |prefixes|
        invariant 0 <= i <= |prefixes|
        invariant forall k :: 0 <= k < i ==> !EqIgnoreCase(prefixes[k], prefix)
      {
        if EqIgnoreCase(prefixes[i], prefix) {
          return false;
        }
        i := i + 1;
      }
      SetPrefixes(prefixes + [prefix]);
      return true;
    }

    /** `removePrefix`: deletes the first prefix equal ignoring case, even the last one left. */
    method RemovePrefix(prefix: string) returns (removed: bool)
      modifies this, manager
      ensures var i := IndexOfIgnoreCase(old(prefixes), prefix);
        removed == (i >= 0)
        && (removed ==> Data() == old(Data()).(prefixes := old(prefixes)[..i] + old(prefixes)[i + 1..])
                        && manager.Upserted(this))
      ensures !removed ==> unchanged(this, manager)
    {
      var i := 0;
      while i < |prefixes|
        invariant 0 <= i <= |prefixes|
        invariant forall k :: 0 <= k < i ==> !EqIgnoreCase(prefixes[k], prefix)
      {
        if EqIgnoreCase(prefixes[i], prefix) {
          assert IndexOfIgnoreCase(prefixes, prefix) == i;
          SetPrefixes(prefixes[..i] + prefixes[i + 1..]);
          return true;
        }
        i := i + 1;
      }
      return false;
    }

    /** `setPrefixes`. */
    method SetPrefixes(ps: seq<string>)
      modifies this, manager
      ensures Data() == old(Data()).(prefixes := ps) && manager.Upserted(this)
    {
      prefixes := ps;
      manager.Put(this);
    }

    /** `putPrefixes`: the same change without saving. */
    method PutPrefixes(ps: seq<string>)
      modifies this
      ensures Data() == old(Data()).(prefixes := ps)
    {
      prefixes := ps;
    }

    // ------------------------------------------------------ single ids

    predicate HasModId() reads this { modId != 0 }
    predicate HasModLogId() reads this { modLogId != 0 }
    predicate HasMutedId() reads this { mutedId != 0 }

    method SetModId(v: int)
      modifies this, manager
      ensures Data() == old(Data()).(modId := v) && manager.Upserted(this)
    {
      modId := v;
      manager.Put(this);
    }

    method PutModId(v: int)
      modifies this
      ensures Data() == old(Data()).(modId := v)
    {
      modId := v;
    }

    method SetModLogId(v: int)
      modifies this, manager
      ensures Data() == old(Data()).(modLogId := v) && manager.Upserted(this)
    {
      modLogId := v;
      manager.Put(this);
    }

    method PutModLogId(v: int)
      modifies this
      ensures Data() == old(Data()).(modLogId := v)
    {
      modLogId := v;
    }

    method SetMutedId(v: int)
      modifies this, manager
      ensures Data() == old(Data()).(mutedId := v) && manager.Upserted(this)
    {
      mutedId := v;
      manager.Put(this);
    }

    method PutMutedId(v: int)
      modifies this
      ensures Data() == old(Data()).(mutedId := v)
    {
      mutedId := v;
    }

    // ----------------------------------------------------------- mutes

    method IsMuted(userId: int) returns (b: bool)
      ensures b <==> userId in muted
    {
      b := ContainsId(muted, userId);
    }

    /** `addMute`: false if already muted, else appended. */
    method AddMute(userId: int) returns (added: bool)
      modifies this, manager
      ensures added <==> userId !in old(muted)
      ensures added ==> Data() == old(Data()).(muted := old(muted) + [userId]) && manager.Upserted(this)
      ensures !added ==> unchanged(this, manager)
      ensures old(Clean()) ==> Clean()
    {
      var present := IsMuted(userId);
      if present {
        return false;
      }
      muted := muted + [userId];
      manager.Put(this);
      return true;
    }

    /** `putMute`: `IllegalArgumentException` if already muted, else appended without saving. */
    method PutMute(userId: int) returns (r: Result<bool>)
      modifies this
      ensures r.Err? <==> userId in old(muted)
      ensures r.Err? ==> unchanged(this)
      ensures r.Ok? ==> Data() == old(Data()).(muted := old(muted) + [userId])
      ensures old(Clean()) ==> Clean()
    {
      var present := IsMuted(userId);
      if present {
        return Err("IllegalArgumentException");
      }
      muted := muted + [userId];
      return Ok(true);
    }

    /** `removeMute`: false if absent, else the skip loop runs and the record is saved. */
    method RemoveMute(userId: int) returns (removed: bool)
      modifies this, manager
      ensures removed <==> userId in old(muted)
      ensures removed ==> Data() == old(Data()).(muted := SkipRemoved(old(muted), userId)) && manager.Upserted(this)
      ensures !removed ==> unchanged(this, manager)
      ensures old(NoDups(muted)) ==> NoDups(muted) && userId !in muted
    {
      var present := IsMuted(userId);
      if !present {
        return false;
      }
      muted := SkipRemove(muted, userId);
      if NoDups(old(muted)) {
        SkipRemovedIsWithout(old(muted), userId);
        WithoutKeepsNoDups(old(muted), userId);
      }
      manager.Put(this);
      return true;
    }

    /** `addMutes`: appends each id not yet present, then saves. */
    method AddMutes(userIds: seq<int>)
      modifies this, manager
      ensures Data() == old(Data()).(muted := AddAllNew(old(muted), userIds)) && manager.Upserted(this)
      ensures old(NoDups(muted)) ==> NoDups(muted)
    {
      var i := 0;
      while i < |userIds|
        invariant 0 <= i <= |userIds|
        invariant AddAllNew(muted, userIds[i..]) == AddAllNew(old(muted), userIds)
        invariant Data() == old(Data()).(muted := muted)
        invariant unchanged(manager)
      {
        var present := IsMuted(userIds[i]);
        assert userIds[i..][1..] == userIds[i + 1..];
        if !present {
          muted := muted + [userIds[i]];
        }
        i := i + 1;
      }
      assert userIds[i..] == [];
      if NoDups(old(muted)) {
        AddAllNewProps(old(muted), userIds);
      }
      manager.Put(this);
    }

    method PutClearMutes()
      modifies this
      ensures Data() == old(Data()).(muted := [])
    {
      muted := [];
    }

    method ClearMutes()
      modifies this, manager
      ensures Data() == old(Data()).(muted := []) && manager.Upserted(this)
    {
      muted := [];
      manager.Put(this);
    }

    // ----------------------------------------------------------- cases

    function CurrentCaseNumber(): int reads this { caseNumber }

    function NextCaseNumber(): (n: int)
      reads this
      ensures n == CurrentCaseNumber() + 1
    {
      1 + caseNumber
    }

    /** `addCase` (both overloads): files the case under `old+1` and bumps the counter. */
    method AddCase(modId: int, messageId: int, reason: Option<string>)
      modifies this, manager
      ensures Data() == old(Data()).(
        cases := old(cases)[old(caseNumber) + 1 := CaseEntry(modId, messageId, ReasonText(reason))],
        caseNumber := old(caseNumber) + 1)
      ensures manager.Upserted(this)
      ensures old(Dense(cases, caseNumber)) ==> Dense(cases, caseNumber)
    {
      cases := cases[NextCaseNumber() := CaseEntry(modId, messageId, ReasonText(reason))];
      caseNumber := NextCaseNumber();
      manager.Put(this);
    }

    /**
     * `addReasonToCase`: false when there are no cases, the number is past
     * the counter or not filed. `fromCasesJSON` yields null when fewer cases
     * exist than the number (a `NullPointerException` follows) and the JSON
     * constructor throws on an unreadable case; otherwise only the reason of
     * that case changes.
     */
    method AddReasonToCase(reason: Option<string>, n: int) returns (r: Result<bool>)
      modifies this, manager
      ensures var c := old(cases);
        if |c| == 0 || n > old(caseNumber) || n !in c then r == Ok(false) && unchanged(this, manager)
        else if |c| < n || !Readable(c[n]) then r.Err? && unchanged(this, manager)
        else r == Ok(true) && manager.Upserted(this)
             && Data() == old(Data()).(cases := c[n := CaseEntry(c[n].modId, c[n].messageId, ReasonText(reason))])
    {
      if |cases| == 0 || n > caseNumber || n !in cases {
        return Ok(false);
      }
      if |cases| < n {
        return Err("NullPointerException");
      }
      var c := cases[n];
      if !Readable(c) {
        return Err("IllegalStateException");
      }
      cases := cases[n := c.(reason := ReasonText(reason))];
      manager.Put(this);
      return Ok(true);
    }

    /**
     * `getNewestCaseForId`: every case is read (an unreadable one throws);
     * the result is the largest number of an open case of `modId`, or 0.
     * `keyOrder` is the order in which the key set is enumerated.
     */
    method GetNewestCaseForId(modId: int, keyOrder: seq<int>) returns (r: Result<int>)
      requires NoDups(keyOrder)
      requires forall j :: 0 <= j < |keyOrder| ==> keyOrder[j] in cases
      requires forall k :: k in cases ==> k in keyOrder
      ensures r.Err? <==> exists k :: k in cases && !Readable(cases[k])
      ensures r.Ok? && r.value == 0 ==> forall k :: k in cases && IsOpenFor(cases[k], modId) ==> k <= 0
      ensures r.Ok? && r.value != 0 ==> r.value in cases && IsOpenFor(cases[r.value], modId)
      ensures r.Ok? ==> forall k :: k in cases && IsOpenFor(cases[k], modId) ==> k <= r.value
    {
      var best: Option<int> := None;
      var i := 0;
      while i < |keyOrder|
        invariant 0 <= i <= |keyOrder|
        invariant forall j :: 0 <= j < i ==> Readable(cases[keyOrder[j]])
        invariant best.Some? ==> best.value in cases && IsOpenFor(cases[best.value], modId)
        invariant forall j :: 0 <= j < i && IsOpenFor(cases[keyOrder[j]], modId) ==> best.Some? && keyOrder[j] <= best.value
      {
        var k := keyOrder[i];
        if !Readable(cases[k]) {
          return Err("IllegalStateException");
        }
        if IsOpenFor(cases[k], modId) && (best.None? || best.value < k) {
          best := Some(k);
        }
        i := i + 1;
      }
      r := if best.None? then Ok(0) else Ok(best.value);
    }

    /** `resetCaseSystem`. */
    method ResetCaseSystem()
      modifies this, manager
      ensures Data() == old(Data()).(caseNumber := 0, cases := map[]) && manager.Upserted(this)
      ensures Dense(cases, caseNumber)
    {
      caseNumber := 0;
      cases := map[];
      manager.Put(this);
    }

    /** `putNewCaseSystem`: the same reset without saving. */
    method PutNewCaseSystem()
      modifies this
      ensures Data() == old(Data()).(caseNumber := 0, cases := map[])
    {
      caseNumber := 0;
      cases := map[];
    }

    // ---------------------------------------------------------- RoleMe

    method IsRoleMe(roleId: int) returns (b: bool)
      ensures b <==> roleId in roleMe
    {
      b := ContainsId(roleMe, roleId);
    }

    method AddRoleMe(roleId: int) returns (added: bool)
      modifies this, manager
      ensures added <==> roleId !in old(roleMe)
      ensures added ==> Data() == old(Data()).(roleMe := old(roleMe) + [roleId]) && manager.Upserted(this)
      ensures !added ==> unchanged(this, manager)
      ensures old(Clean()) ==> Clean()
    {
      var present := IsRoleMe(roleId);
      if present {
        return false;
      }
      roleMe := roleMe + [roleId];
      manager.Put(this);
      return true;
    }

    method PutRoleMe(roleId: int) returns (r: Result<bool>)
      modifies this
      ensures r.Err? <==> roleId in old(roleMe)
      ensures r.Err? ==> unchanged(this)
      ensures r.Ok? ==> Data() == old(Data()).(roleMe := old(roleMe) + [roleId])
    {
      var present := IsRoleMe(roleId);
      if present {
        return Err("IllegalArgumentException");
      }
      roleMe := roleMe + [roleId];
      return Ok(true);
    }

    method RemoveRoleMe(roleId: int) returns (removed: bool)
      modifies this, manager
      ensures removed <==> roleId in old(roleMe)
      ensures removed ==> Data() == old(Data()).(roleMe := SkipRemoved(old(roleMe), roleId)) && manager.Upserted(this)
      ensures !removed ==> unchanged(this, manager)
      ensures old(NoDups(roleMe)) ==> NoDups(roleMe) && roleId !in roleMe
    {
      var present := IsRoleMe(roleId);
      if !present {
        return false;
      }
      roleMe := SkipRemove(roleMe, roleId);
      if NoDups(old(roleMe)) {
        SkipRemovedIsWithout(old(roleMe), roleId);
        WithoutKeepsNoDups(old(roleMe), roleId);
      }
      manager.Put(this);
      return true;
    }

    method PutClearRoleMes()
      modifies this
      ensures Data() == old(Data()).(roleMe := [])
    {
      roleMe := [];
    }

    method ClearRoleMes()
      modifies this, manager
      ensures Data() == old(Data()).(roleMe := []) && manager.Upserted(this)
    {
      roleMe := [];
      manager.Put(this);
    }

    // --------------------------------------------------------- ColorMe

    method IsColorMe(roleId: int) returns (b: bool)
      ensures b <==> roleId in colorMe
    {
      b := ContainsId(colorMe, roleId);
    }

    method AddColorMe(roleId: int) returns (added: bool)
      modifies this, manager
      ensures added <==> roleId !in old(colorMe)
      ensures added ==> Data() == old(Data()).(colorMe := old(colorMe) + [roleId]) && manager.Upserted(this)
      ensures !added ==> unchanged(this, manager)
      ensures old(Clean()) ==> Clean()
    {
      var present := IsColorMe(roleId);
      if present {
        return false;
      }
      colorMe := colorMe + [roleId];
      manager.Put(this);
      return true;
    }

    method PutColorMe(roleId: int) returns (r: Result<bool>)
      modifies this
      ensures r.Err? <==> roleId in old(colorMe)
      ensures r.Err? ==> unchanged(this)
      ensures r.Ok? ==> Data() == old(Data()).(colorMe := old(colorMe) + [roleId])
    {
      var present := IsColorMe(roleId);
      if present {
        return Err("IllegalArgumentException");
      }
      colorMe := colorMe + [roleId];
      return Ok(true);
    }

    method RemoveColorMe(roleId: int) returns (removed: bool)
      modifies this, manager
      ensures removed <==> roleId in old(colorMe)
      ensures removed ==> Data() == old(Data()).(colorMe := SkipRemoved(old(colorMe), roleId)) && manager.Upserted(this)
      ensures !removed ==> unchanged(this, manager)
      ensures old(NoDups(colorMe)) ==> NoDups(colorMe) && roleId !in colorMe
    {
      var present := IsColorMe(roleId);
      if !present {
        return false;
      }
      colorMe := SkipRemove(colorMe, roleId);
      if NoDups(old(colorMe)) {
        SkipRemovedIsWithout(old(colorMe), roleId);
        WithoutKeepsNoDups(old(colorMe), roleId);
      }
      manager.Put(this);
      return true;
    }

    method PutClearColorMes()
      modifies this
      ensures Data() == old(Data()).(colorMe := [])
    {
      colorMe := [];
    }

    method ClearColorMes()
      modifies this, manager
      ensures Data() == old(Data()).(colorMe := []) && manager.Upserted(this)
    {
      colorMe := [];
      manager.Put(this);
    }

    // ----------------------------------------------------------- reset

    /** `fullReset`: every key back to its default, then saved. */
    method FullReset()
      modifies this, manager
      ensures Data() == ResetData(old(Data())) && manager.Upserted(this)
      ensures Clean()
    {
      ghost var reset := ResetData(Data());
      ResetIsClean(Data());
      prefixes := [DEFAULT_PREFIX];
      modId := 0;
      modLogId := 0;
      mutedId := 0;
      muted := [];
      caseNumber := 0;
      cases := map[];
      roleMe := [];
      colorMe := [];
      assert Data() == reset;
      manager.Put(this);
    }
  }

  /** Filing `s` under its id changes the snapshot at that id only, when no other record changed. */
  twostate lemma SnapshotAfterUpsert(m: NightFuryManager, new s: Settings)
    requires m.settingsMap == old(m.settingsMap)[s.id := s]
    requires forall k :: k in old(m.settingsMap) && k != s.id ==> unchanged(old(m.settingsMap)[k])
    ensures m.Snapshot() == old(m.Snapshot())[s.id := s.Data()]
  {
    forall k | k in m.settingsMap && k != s.id
      ensures m.settingsMap[k].Data() == old(m.settingsMap[k].Data())
    {
      assert unchanged(old(m.settingsMap)[k]);
    }
  }

  /** Under the dense numbering every filed number is within the count, so `addReasonToCase` cannot hit the null case. */
  lemma DenseNoNullCase(cases: map<int, CaseEntry>, caseNumber: int, n: int)
    requires Dense(cases, caseNumber) && n in cases
    ensures n <= |cases|
  {
    DenseSize(cases, caseNumber);
  }

  /**
   * A record whose counter says 2 but holds only case 2 makes
   * `addReasonToCase(_, 2)` dereference null: the map is not dense, so
   * `DenseNoNullCase` does not apply and number 2 exceeds the map's size.
   */
  lemma GapReachesNullCase()
    ensures var c := map[2 := CaseEntry(1, 1, "null")];
      |c| != 0 && 2 <= 2 && 2 in c && |c| < 2
  {
  }

  /**
   * After a failed write the flag stays set, so later saves schedule
   * nothing and the change never reaches the file.
   */
  method StuckAfterFailedWrite() returns (pendingAfter: nat, written: bool)
    ensures pendingAfter == 0 && !written
  {
    var m := new NightFuryManager();
    var a := m.CreateSettings(1);
    m.RunScheduled(false, true);
    var b := m.CreateSettings(2);
    pendingAfter := m.scheduled;
    written := 2 in m.file;
  }

  /** With the flag cleared however the flush ends, the next save schedules again. */
  method RetryAfterFailedWrite() returns (pendingAfter: nat)
    ensures pendingAfter == 1
  {
    var m := new NightFuryManager();
    var a := m.CreateSettings(1);
    m.RunScheduledCorrected(false, true);
    var b := m.CreateSettings(2);
    pendingAfter := m.scheduled;
  }
}
