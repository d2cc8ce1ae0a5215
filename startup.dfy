/**
 * `NightFuryManager.readyLoader` and `handleLoadedJSON`: loading the
 * settings file at start-up and scrubbing every record against the guild
 * as it is live. A live guild is the sets of ids it has; the files are
 * read outcomes.
 */
module Startup {
  import opened Util
  import opened Persistence

  /** The developer's user id checked by both guild filters. */
  const DEVELOPER_ID: int := 211393686628597761
  /** Bot or fake members from which a guild counts as a bot farm. */
  const NOT_REAL_LIMIT: nat := 20

  /** What the scrub can see of a guild the bot is in. */
  datatype LiveGuild = LiveGuild(
    roles: set<int>,
    textChannels: set<int>,
    members: set<int>,
    notReal: nat,
    roleHolders: map<int, seq<int>>)

  /** `getMembersWithRoles(role)` lists each member once. */
  ghost predicate WellFormed(g: LiveGuild)
  {
    forall role :: role in g.roleHolders ==> NoDups(g.roleHolders[role])
  }

  function Holders(g: LiveGuild, role: int): seq<int>
  {
    if role in g.roleHolders then g.roleHolders[role] else []
  }

  /** `handleLoadedJSON` leaves a guild with 20 or more bots and no developer. */
  predicate LeavesOnLoad(g: LiveGuild)
  {
    g.notReal >= NOT_REAL_LIMIT && DEVELOPER_ID !in g.members
  }

  /** Step 1 of `readyLoader` as written: the developer present and 20 or more bots. */
  predicate PurgeSelects(g: LiveGuild)
  {
    DEVELOPER_ID in g.members && g.notReal >= NOT_REAL_LIMIT
  }

  /** Step 1 as its comment means it: the same rule as the load-time filter. */
  predicate PurgeSelectsCorrected(g: LiveGuild)
  {
    LeavesOnLoad(g)
  }

  /** The two filters as written never pick the same guild. */
  lemma PurgeOppositeToLoadRule(g: LiveGuild)
    ensures PurgeSelects(g) ==> !LeavesOnLoad(g)
    ensures LeavesOnLoad(g) ==> !PurgeSelects(g)
  {
  }

  /** A bot farm the developer is in is picked by step 1 and kept by the load filter. */
  lemma PurgePicksDeveloperGuild()
    ensures var g := LiveGuild({}, {}, {DEVELOPER_ID}, 20, map[]);
      PurgeSelects(g) && !LeavesOnLoad(g)
  {
  }

  lemma PurgeCorrectedAgrees(g: LiveGuild)
    ensures PurgeSelectsCorrected(g) <==> LeavesOnLoad(g)
    ensures PurgeSelectsCorrected(g) ==> !PurgeSelects(g)
  {
  }

  // ------------------------------------------------ RoleMe iteration

  /** Where a for-each over a list that its body may shrink ends. */
  datatype Iteration = Iteration(list: seq<int>, failed: bool)

  /**
   * The RoleMe check as written: a for-each over the RoleMe array whose
   * body calls `removeRoleMe` on that same array. The first removal bumps
   * the list's modification count, so the iterator's next `next()` throws
   * `ConcurrentModificationException`; only when the cursor then equals
   * the new size does `hasNext()` end the loop quietly.
   */
  function ForEachScrub(l: seq<int>, cursor: nat, live: set<int>): Iteration
    requires cursor <= |l|
    decreases |l| - cursor
  {
    if cursor == |l| then Iteration(l, false)
    else if l[cursor] in live then ForEachScrub(l, cursor + 1, live)
    else
      var l' := SkipRemoved(l, l[cursor]);
      Iteration(l', cursor + 1 != |l'|)
  }

  /** The ColorMe check as written: stale ColorMe ids are passed to `removeRoleMe`. */
  function ColorLoop(colorMe: seq<int>, roleMe: seq<int>, live: set<int>): seq<int>
    decreases |colorMe|
  {
    if colorMe == [] then roleMe
    else ColorLoop(colorMe[1..], if colorMe[0] !in live then SkipRemoved(roleMe, colorMe[0]) else roleMe, live)
  }

  /** `l` restricted to the ids in `live`, in order. */
  function KeepLive(l: seq<int>, live: set<int>): (r: seq<int>)
    ensures forall y :: y in r <==> y in l && y in live
    ensures |r| <= |l|
  {
    if l == [] then []
    else if l[0] in live then [l[0]] + KeepLive(l[1..], live)
    else KeepLive(l[1..], live)
  }

  lemma {:induction false} KeepLiveOfLive(l: seq<int>, live: set<int>)
    requires forall y :: y in l ==> y in live
    ensures KeepLive(l, live) == l
    decreases |l|
  {
    if l != [] {
      var y := l[0];
      assert y in l;
      assert y in l ==> y in live;
      assert forall y :: y in l[1..] ==> y in l;
      KeepLiveOfLive(l[1..], live);
      assert KeepLive(l[1..], live) == l[1..];
      assert KeepLive(l, live) == [l[0]] + KeepLive(l[1..], live);
      assert [l[0]] + l[1..] == l;
    }
  }

  lemma {:induction false} ForEachScrubOfLive(l: seq<int>, cursor: nat, live: set<int>)
    requires cursor <= |l|
    requires forall y :: y in l ==> y in live
    ensures ForEachScrub(l, cursor, live) == Iteration(l, false)
    decreases |l| - cursor
  {
    if cursor < |l| {
      assert l[cursor] in l;
      ForEachScrubOfLive(l, cursor + 1, live);
    }
  }

  lemma {:induction false} ColorLoopOfLive(colorMe: seq<int>, roleMe: seq<int>, live: set<int>)
    requires forall y :: y in colorMe ==> y in live
    ensures ColorLoop(colorMe, roleMe, live) == roleMe
    decreases |colorMe|
  {
    if colorMe != [] {
      assert colorMe[0] in colorMe;
      assert forall y :: y in colorMe[1..] ==> y in colorMe;
      ColorLoopOfLive(colorMe[1..], roleMe, live);
    }
  }

  /** A stale first id of three makes the RoleMe check throw. */
  lemma StaleFirstOfThreeThrows()
    ensures ForEachScrub([1, 2, 3], 0, {2, 3}).failed
  {
    assert SkipRemoved([1, 2, 3], 1) == [2, 3] by {
      assert [1, 2, 3][1..] == [2, 3];
      assert SkipRemoved([2, 3], 1) == [2] + SkipRemoved([3], 1);
      assert [2, 3][1..] == [3];
      assert SkipRemoved([3], 1) == [3] + SkipRemoved([], 1);
    }
  }

  /** With two stale ids the loop stops quietly after the first removal and keeps the second. */
  lemma TwoStaleKeepsSecond()
    ensures ForEachScrub([1, 2], 0, {}) == Iteration([2], false)
  {
    assert SkipRemoved([1, 2], 1) == [2] by {
      assert [1, 2][1..] == [2];
      assert SkipRemoved([2], 1) == [2] + SkipRemoved([], 1);
    }
  }

  // ---------------------------------------------------------- the scrub

  /** The muted-role, mod-log and mod-role checks, applied after the RoleMe lists. */
  function ScrubIds(d: SettingsData, g: LiveGuild): SettingsData
  {
    var d1 := if d.modLogId != 0 && d.modLogId !in g.textChannels
              then d.(modLogId := 0, caseNumber := 0, cases := map[]) else d;
    if d1.modId != 0 && d1.modId !in g.roles then d1.(modId := 0) else d1
  }

  function ScrubMuted(d: SettingsData, g: LiveGuild): SettingsData
  {
    if d.mutedId == 0 then d
    else if d.mutedId !in g.roles then d.(mutedId := 0)
    else d.(muted := Holders(g, d.mutedId))
  }

  /** What `handleLoadedJSON` makes of one kept record, or `None` when the RoleMe check throws. */
  function Scrub(d: SettingsData, g: LiveGuild): Option<SettingsData>
  {
    var d1 := ScrubMuted(d, g);
    var it := ForEachScrub(d1.roleMe, 0, g.roles);
    if it.failed then None
    else Some(ScrubIds(d1.(roleMe := ColorLoop(d1.colorMe, it.list, g.roles)), g))
  }

  /** The scrub as evidently meant: every stale RoleMe and ColorMe id dropped, nothing thrown. */
  function ScrubCorrected(d: SettingsData, g: LiveGuild): SettingsData
  {
    var d1 := ScrubMuted(d, g);
    ScrubIds(d1.(roleMe := KeepLive(d1.roleMe, g.roles), colorMe := KeepLive(d1.colorMe, g.roles)), g)
  }

  /** After the scrub every id that is set names a live role or channel. */
  lemma ScrubCorrectedIdsLive(d: SettingsData, g: LiveGuild)
    ensures var r := ScrubCorrected(d, g);
      (r.mutedId == 0 || r.mutedId in g.roles)
      && (r.modLogId == 0 || r.modLogId in g.textChannels)
      && (r.modId == 0 || r.modId in g.roles)
      && (forall y :: y in r.roleMe ==> y in g.roles)
      && (forall y :: y in r.colorMe ==> y in g.roles)
  {
  }

  /** Scrubbing a scrubbed record again changes nothing. */
  lemma ScrubCorrectedIdempotent(d: SettingsData, g: LiveGuild)
    ensures ScrubCorrected(ScrubCorrected(d, g), g) == ScrubCorrected(d, g)
  {
    var r := ScrubCorrected(d, g);
    ScrubCorrectedIdsLive(d, g);
    KeepLiveOfLive(r.roleMe, g.roles);
    KeepLiveOfLive(r.colorMe, g.roles);
  }

  /** A muted role that is live replaces the mute list with its holders; a reset log channel resets the cases. */
  lemma ScrubRules(d: SettingsData, g: LiveGuild)
    requires Scrub(d, g).Some?
    ensures var r := Scrub(d, g).value;
      (r.mutedId == 0 || r.mutedId in g.roles)
      && (d.mutedId != 0 && d.mutedId in g.roles ==> r.muted == Holders(g, d.mutedId))
      && (d.mutedId == 0 || d.mutedId in g.roles ==> r.mutedId == d.mutedId)
      && (r.modLogId == 0 || r.modLogId in g.textChannels)
      && (d.modLogId != 0 && d.modLogId !in g.textChannels ==> r.caseNumber == 0 && r.cases == map[])
      && (r.modId == 0 || r.modId in g.roles)
      && r.colorMe == d.colorMe && r.prefixes == d.prefixes
  {
  }

  /** When no RoleMe or ColorMe id is stale the code as written and the corrected scrub agree. */
  lemma ScrubAgreesWhenListsLive(d: SettingsData, g: LiveGuild)
    requires forall y :: y in d.roleMe ==> y in g.roles
    requires forall y :: y in d.colorMe ==> y in g.roles
    ensures Scrub(d, g) == Some(ScrubCorrected(d, g))
  {
    var d1 := ScrubMuted(d, g);
    ForEachScrubOfLive(d1.roleMe, 0, g.roles);
    ColorLoopOfLive(d1.colorMe, d1.roleMe, g.roles);
    KeepLiveOfLive(d1.roleMe, g.roles);
    KeepLiveOfLive(d1.colorMe, g.roles);
  }

  /** A stale ColorMe id that is not also a RoleMe id survives the scrub. */
  lemma StaleColorMeSurvives(d: SettingsData, g: LiveGuild, c: int)
    requires Scrub(d, g).Some? && c in d.colorMe && c !in g.roles
    ensures c in Scrub(d, g).value.colorMe
    ensures c !in ScrubCorrected(d, g).colorMe
  {
  }

  // ----------------------------------------------------- the methods

  /** The RoleMe check, iterating as an `ArrayList` iterator does. */
  method ScrubRoleMe(s: Settings, live: set<int>) returns (failed: bool)
    modifies s, s.manager
    ensures var it := ForEachScrub(old(s.roleMe), 0, live);
      failed == it.failed && s.Data() == old(s.Data()).(roleMe := it.list)
    ensures s.manager.PutsOf(s)
  {
    ghost var start := s.roleMe;
    var cursor := 0;
    var modified := false;
    while cursor != |s.roleMe|
      invariant !modified ==> s.roleMe == start && cursor <= |start|
                              && ForEachScrub(start, cursor, live) == ForEachScrub(start, 0, live)
      invariant modified ==> ForEachScrub(start, 0, live) == Iteration(s.roleMe, cursor != |s.roleMe|)
      invariant s.Data() == old(s.Data()).(roleMe := s.roleMe)
      invariant s.manager.PutsOf(s)
      decreases if modified then 0 else 1, |s.roleMe| - cursor
    {
      if modified {
        return true;
      }
      var id := s.roleMe[cursor];
      cursor := cursor + 1;
      if id !in live {
        var removed := s.RemoveRoleMe(id);
        modified := true;
      }
    }
    return false;
  }

  /** The ColorMe check: each stale ColorMe id goes to `removeRoleMe`. */
  method ScrubColorMe(s: Settings, live: set<int>)
    modifies s, s.manager
    ensures s.Data() == old(s.Data()).(roleMe := ColorLoop(old(s.colorMe), old(s.roleMe), live))
    ensures s.manager.PutsOf(s)
  {
    var i := 0;
    while i < |s.colorMe|
      invariant 0 <= i <= |s.colorMe| && s.colorMe == old(s.colorMe)
      invariant ColorLoop(s.colorMe[i..], s.roleMe, live) == ColorLoop(old(s.colorMe), old(s.roleMe), live)
      invariant s.Data() == old(s.Data()).(roleMe := s.roleMe)
      invariant s.manager.PutsOf(s)
    {
      var id := s.colorMe[i];
      assert s.colorMe[i..][1..] == s.colorMe[i + 1..];
      if id !in live {
        ghost var before := s.roleMe;
        var removed := s.RemoveRoleMe(id);
        if !removed {
          SkipRemovedAbsent(before, id);
        }
      }
      i := i + 1;
    }
  }

  /** The muted-role check: an unknown role resets the id, a known one reloads the mute list. */
  method ScrubMutedRole(s: Settings, g: LiveGuild)
    requires WellFormed(g)
    modifies s
    ensures s.Data() == ScrubMuted(old(s.Data()), g)
  {
    if s.HasMutedId() {
      if s.mutedId !in g.roles {
        s.PutMutedId(0);
      } else {
        s.PutClearMutes();
        var holders := Holders(g, s.mutedId);
        var i := 0;
        while i < |holders|
          invariant 0 <= i <= |holders|
          invariant s.Data() == old(s.Data()).(muted := holders[..i])
        {
          assert holders[i] !in holders[..i];
          var r := s.PutMute(holders[i]);
          assert holders[..i + 1] == holders[..i] + [holders[i]];
          i := i + 1;
        }
        assert holders[..i] == holders;
      }
    }
  }

  /** Every check of `handleLoadedJSON` on one record, in the source's order. */
  method ScrubRecord(s: Settings, g: LiveGuild) returns (failed: bool)
    requires WellFormed(g)
    modifies s, s.manager
    ensures failed <==> Scrub(old(s.Data()), g).None?
    ensures !failed ==> Scrub(old(s.Data()), g) == Some(s.Data())
    ensures s.manager.PutsOf(s)
  {
    ghost var d0 := s.Data();
    ScrubMutedRole(s, g);
    ghost var d1 := s.Data();
    assert d1 == ScrubMuted(d0, g);
    failed := ScrubRoleMe(s, g.roles);
    if failed {
      return;
    }
    ghost var it := ForEachScrub(d1.roleMe, 0, g.roles);
    assert s.Data() == d1.(roleMe := it.list);
    ScrubColorMe(s, g.roles);
    assert s.Data() == d1.(roleMe := ColorLoop(d1.colorMe, it.list, g.roles));
    if s.HasModLogId() && s.modLogId !in g.textChannels {
      s.PutModLogId(0);
      s.PutNewCaseSystem();
    }
    if s.HasModId() && s.modId !in g.roles {
      s.PutModId(0);
    }
  }

  /**
   * One key of `handleLoadedJSON`: a bot farm without the developer is
   * left and its record dropped (`Ok(false)`); otherwise the record is
   * scrubbed and put (`Ok(true)`), unless the RoleMe check throws.
   */
  method LoadEntry(m: NightFuryManager, key: int, stored: StoredSettings, g: LiveGuild) returns (r: Result<bool>)
    requires WellFormed(g)
    modifies m
    ensures LeavesOnLoad(g) ==> unchanged(m)
    ensures LeavesOnLoad(g) ==> r == Ok(false)
    ensures !LeavesOnLoad(g) ==> (r.Err? <==> Scrub(WithDefaults(key, stored), g).None?)
    ensures !LeavesOnLoad(g) && r.Ok? ==> r.value
    ensures !LeavesOnLoad(g) && r.Ok? ==>
      m.Snapshot() == old(m.Snapshot())[key := Scrub(WithDefaults(key, stored), g).value]
    ensures r.Ok? ==> m.file == old(m.file) && m.backup == old(m.backup)
    ensures r == Ok(true) ==> m.setToWrite
    ensures old(m.Valid()) && r.Ok? ==> m.Valid()
  {
    if LeavesOnLoad(g) {
      return Ok(false);
    }
    var s := new Settings(m, key, stored);
    label created:
    ghost var map0 := m.settingsMap;
    var failed := ScrubRecord(s, g);
    if failed {
      return Err("ConcurrentModificationException");
    }
    m.Put(s);
    assert m.settingsMap == map0[key := s];
    assert forall k :: k in map0 && k != key ==> map0[k] != s;
    SnapshotAfterUpsert@created(m, s);
    return Ok(true);
  }

  // ------------------------------------------------------ readyLoader

  /** What reading a settings file gives. */
  datatype ReadOutcome =
    | NoSuchFile
    | IoFailure
    | JsonFailure
    | Parsed(json: map<int, StoredSettings>)

  /**
   * The JSON object `readyLoader` works on: a missing file reads as `{}`,
   * any other failure falls back to the backup, which must itself parse.
   */
  function GuildsJson(primary: ReadOutcome, backup: ReadOutcome): (r: Option<map<int, StoredSettings>>)
    ensures primary.Parsed? ==> r == Some(primary.json)
    ensures primary == NoSuchFile ==> r == Some(map[])
    ensures !primary.Parsed? && primary != NoSuchFile ==>
      (r.Some? <==> backup.Parsed?) && (backup.Parsed? ==> r.value == backup.json)
  {
    match primary
    case Parsed(j) => Some(j)
    case NoSuchFile => Some(map[])
    case _ => if backup.Parsed? then Some(backup.json) else None
  }

  /** The saved keys `handleLoadedJSON` keeps: visible guilds that are not bot farms. */
  predicate Kept(json: map<int, StoredSettings>, guilds: map<int, LiveGuild>, k: int)
  {
    k in json && k in guilds && !LeavesOnLoad(guilds[k])
  }

  /** Some kept record makes the RoleMe check throw. */
  predicate LoadThrows(json: map<int, StoredSettings>, guilds: map<int, LiveGuild>)
  {
    exists k :: k in json && Kept(json, guilds, k) && Scrub(WithDefaults(k, json[k]), guilds[k]).None?
  }

  /** The scrubbed data of every kept key whose scrub does not throw. */
  function Scrubbed(json: map<int, StoredSettings>, guilds: map<int, LiveGuild>): map<int, SettingsData>
  {
    map k | k in json && Kept(json, guilds, k) && Scrub(WithDefaults(k, json[k]), guilds[k]).Some?
      :: Scrub(WithDefaults(k, json[k]), guilds[k]).value
  }

  /** The entries of `v` whose keys are in `ks`. */
  function Restrict(v: map<int, SettingsData>, ks: set<int>): (r: map<int, SettingsData>)
    ensures r.Keys == v.Keys * ks
    ensures forall k :: k in r ==> r[k] == v[k]
  {
    map k | k in ks && k in v :: v[k]
  }

  /** Step four: a default record for each visible guild without one. */
  function WithNewGuilds(base: map<int, SettingsData>, guilds: set<int>): (r: map<int, SettingsData>)
    ensures r.Keys == base.Keys + guilds
    ensures forall k :: k in base ==> r[k] == base[k]
    ensures forall k :: k in guilds && k !in base ==> r[k] == WithDefaults(k, EmptyJson)
  {
    base + map k | k in guilds && k !in base :: WithDefaults(k, EmptyJson)
  }

  /** What the records are after a load that does not throw. */
  function AfterLoad(before: map<int, SettingsData>, json: map<int, StoredSettings>, guilds: map<int, LiveGuild>): map<int, SettingsData>
  {
    WithNewGuilds(before + Scrubbed(json, guilds), guilds.Keys)
  }

  /** Every visible guild has a record after the load; a kept key holds its scrubbed data. */
  lemma AfterLoadCovers(before: map<int, SettingsData>, json: map<int, StoredSettings>, guilds: map<int, LiveGuild>)
    requires !LoadThrows(json, guilds)
    ensures var a := AfterLoad(before, json, guilds);
      a.Keys == before.Keys + guilds.Keys
      && (forall k :: Kept(json, guilds, k) ==> a[k] == Scrub(WithDefaults(k, json[k]), guilds[k]).value)
      && (forall k :: k in before && !Kept(json, guilds, k) ==> a[k] == before[k])
  {
    var a := AfterLoad(before, json, guilds);
    forall k | k in guilds
      ensures Kept(json, guilds, k) ==> k in Scrubbed(json, guilds)
    {
      if Kept(json, guilds, k) {
        assert Scrub(WithDefaults(k, json[k]), guilds[k]).Some?;
      }
    }
  }

  /**
   * A bot farm is left but, the leave being asynchronous, is still visible
   * in step four: without an earlier record it gets a default one.
   */
  lemma LeftFarmGetsDefault(before: map<int, SettingsData>, json: map<int, StoredSettings>, guilds: map<int, LiveGuild>, k: int)
    requires k in guilds && LeavesOnLoad(guilds[k]) && k !in before
    ensures AfterLoad(before, json, guilds)[k] == WithDefaults(k, EmptyJson)
  {
    assert k !in Scrubbed(json, guilds);
  }

  /** The ids listed in `order`. */
  function Listed(order: seq<int>): set<int>
  {
    set k | k in order
  }

  lemma ListedSnoc(order: seq<int>)
    requires order != []
    ensures Listed(order) == Listed(order[..|order| - 1]) + {order[|order| - 1]}
  {
    var init := order[..|order| - 1];
    forall k | k in order
      ensures k in Listed(init) + {order[|order| - 1]}
    {
      var j :| 0 <= j < |order| && order[j] == k;
      if j < |order| - 1 {
        assert init[j] == k;
      }
    }
    forall k | k in init
      ensures k in order
    {
      var j :| 0 <= j < |init| && init[j] == k;
      assert order[j] == k;
    }
  }

  /** A visiting order that lists exactly `ks`. */
  lemma ListedIsKeys(order: seq<int>, ks: set<int>)
    requires forall j :: 0 <= j < |order| ==> order[j] in ks
    requires forall k :: k in ks ==> k in order
    ensures Listed(order) == ks
  {
    forall k | k in ks
      ensures k in Listed(order)
    {
      assert k in order;
    }
    forall k | k in order
      ensures k in ks
    {
      var j :| 0 <= j < |order| && order[j] == k;
    }
  }

  /** The records after handling a key on top of `base`: `v` holds what each key's handling puts. */
  function LoadStep(base: map<int, SettingsData>, v: map<int, SettingsData>, k: int): map<int, SettingsData>
  {
    if k in v then base[k := v[k]] else base
  }

  /** The keys handled one by one, in `order`, on top of `base`. */
  function LoadedOnto(base: map<int, SettingsData>, v: map<int, SettingsData>, order: seq<int>): map<int, SettingsData>
    decreases |order|
  {
    if order == [] then base
    else LoadStep(LoadedOnto(base, v, order[..|order| - 1]), v, order[|order| - 1])
  }

  /** Handling the keys one at a time gives the same records whatever the order. */
  lemma {:induction false} LoadedOntoIsRestrict(base: map<int, SettingsData>, v: map<int, SettingsData>, order: seq<int>)
    ensures LoadedOnto(base, v, order) == base + Restrict(v, Listed(order))
    decreases |order|
  {
    if order != [] {
      var init := order[..|order| - 1];
      var k := order[|order| - 1];
      LoadedOntoIsRestrict(base, v, init);
      ListedSnoc(order);
      if k in v {
        assert Restrict(v, Listed(order)) == Restrict(v, Listed(init))[k := v[k]];
      } else {
        assert Restrict(v, Listed(order)) == Restrict(v, Listed(init));
      }
    }
  }

  /** One key of `handleLoadedJSON`, when the bot can see its guild. */
  method HandleKey(m: NightFuryManager, json: map<int, StoredSettings>, guilds: map<int, LiveGuild>, key: int)
    returns (r: Result<bool>)
    requires key in json
    requires forall k :: k in guilds ==> WellFormed(guilds[k])
    modifies m
    ensures r.Err? <==> Kept(json, guilds, key) && Scrub(WithDefaults(key, json[key]), guilds[key]).None?
    ensures r.Ok? ==> m.Snapshot() == LoadStep(old(m.Snapshot()), Scrubbed(json, guilds), key)
    ensures r.Ok? ==> m.file == old(m.file) && m.backup == old(m.backup)
    ensures old(m.Valid()) && r.Ok? ==> m.Valid()
  {
    if key !in guilds {
      return Ok(false);
    }
    r := LoadEntry(m, key, json[key], guilds[key]);
    if LeavesOnLoad(guilds[key]) {
      assert m.Snapshot() == old(m.Snapshot());
    }
  }

  /** Step four guild by guild, in `order`. */
  function NewGuildsOver(base: map<int, SettingsData>, order: seq<int>): map<int, SettingsData>
    decreases |order|
  {
    if order == [] then base
    else
      var r := NewGuildsOver(base, order[..|order| - 1]);
      var id := order[|order| - 1];
      if id in r then r else r[id := WithDefaults(id, EmptyJson)]
  }

  /** Visiting the guilds one at a time gives the same records whatever the order. */
  lemma {:induction false} NewGuildsOverIsWith(base: map<int, SettingsData>, order: seq<int>)
    ensures NewGuildsOver(base, order) == WithNewGuilds(base, Listed(order))
    decreases |order|
  {
    if order != [] {
      NewGuildsOverIsWith(base, order[..|order| - 1]);
      ListedSnoc(order);
    }
  }

  /** `handleLoadedJSON` over the whole object, keys visited in `keyOrder`. */
  method HandleLoadedJson(m: NightFuryManager, json: map<int, StoredSettings>,
                          guilds: map<int, LiveGuild>, keyOrder: seq<int>) returns (r: Result<bool>)
    requires forall k :: k in guilds ==> WellFormed(guilds[k])
    requires forall j :: 0 <= j < |keyOrder| ==> keyOrder[j] in json
    requires forall k :: k in json ==> k in keyOrder
    modifies m
    ensures r.Err? <==> LoadThrows(json, guilds)
    ensures r.Ok? ==> m.Snapshot() == old(m.Snapshot()) + Scrubbed(json, guilds)
    ensures r.Ok? ==> m.file == old(m.file) && m.backup == old(m.backup)
    ensures old(m.Valid()) && r.Ok? ==> m.Valid()
  {
    ghost var before := m.Snapshot();
    var i := 0;
    while i < |keyOrder|
      invariant 0 <= i <= |keyOrder|
      invariant forall j :: 0 <= j < i ==> KeyLoads(json, guilds, keyOrder[j])
      invariant m.Snapshot() == LoadedOnto(before, Scrubbed(json, guilds), keyOrder[..i])
      invariant m.file == old(m.file) && m.backup == old(m.backup)
      invariant old(m.Valid()) ==> m.Valid()
    {
      var key := keyOrder[i];
      assert keyOrder[..i + 1][..i] == keyOrder[..i];
      var handled := HandleKey(m, json, guilds, key);
      if handled.Err? {
        return Err(handled.error);
      }
      assert KeyLoads(json, guilds, key);
      i := i + 1;
    }
    assert keyOrder[..i] == keyOrder;
    LoadedAllKeys(before, json, guilds, keyOrder);
    NoKeyThrows(json, guilds, keyOrder);
    return Ok(true);
  }

  /** Once every key is visited, the loaded records are the whole scrubbed object. */
  lemma LoadedAllKeys(before: map<int, SettingsData>, json: map<int, StoredSettings>,
                      guilds: map<int, LiveGuild>, keyOrder: seq<int>)
    requires forall j :: 0 <= j < |keyOrder| ==> keyOrder[j] in json
    requires forall k :: k in json ==> k in keyOrder
    ensures LoadedOnto(before, Scrubbed(json, guilds), keyOrder) == before + Scrubbed(json, guilds)
  {
    LoadedOntoIsRestrict(before, Scrubbed(json, guilds), keyOrder);
    ListedIsKeys(keyOrder, json.Keys);
    assert Restrict(Scrubbed(json, guilds), json.Keys) == Scrubbed(json, guilds);
  }

  /** When no visited key throws and every key is visited, the load does not throw. */
  lemma NoKeyThrows(json: map<int, StoredSettings>, guilds: map<int, LiveGuild>, keyOrder: seq<int>)
    requires forall k :: k in json ==> k in keyOrder
    requires forall j :: 0 <= j < |keyOrder| ==> KeyLoads(json, guilds, keyOrder[j])
    ensures !LoadThrows(json, guilds)
  {
    forall k | k in json && Kept(json, guilds, k)
      ensures Scrub(WithDefaults(k, json[k]), guilds[k]).Some?
    {
      assert k in keyOrder;
      var j :| 0 <= j < |keyOrder| && keyOrder[j] == k;
      assert KeyLoads(json, guilds, keyOrder[j]);
    }
  }

  /** A key whose record, if kept, scrubs without throwing. */
  predicate KeyLoads(json: map<int, StoredSettings>, guilds: map<int, LiveGuild>, k: int)
  {
    Kept(json, guilds, k) ==> Scrub(WithDefaults(k, json[k]), guilds[k]).Some?
  }

  /** One guild of step four: `put(new Settings(this, id, {}))` unless `hasId(id)`. */
  method PutDefaultIfMissing(m: NightFuryManager, id: int)
    modifies m
    ensures m.Snapshot() == if id in old(m.Snapshot()) then old(m.Snapshot())
                            else old(m.Snapshot())[id := WithDefaults(id, EmptyJson)]
    ensures m.file == old(m.file) && m.backup == old(m.backup)
    ensures old(m.Valid()) ==> m.Valid()
  {
    if !m.HasId(id) {
      var s := new Settings(m, id, EmptyJson);
      m.Put(s);
      SnapshotAfterUpsert(m, s);
    }
  }

  /** Step four: a default record for every guild in `guildOrder` that has none. */
  method PutNewGuilds(m: NightFuryManager, guilds: set<int>, guildOrder: seq<int>)
    requires forall j :: 0 <= j < |guildOrder| ==> guildOrder[j] in guilds
    requires forall k :: k in guilds ==> k in guildOrder
    modifies m
    ensures m.Snapshot() == WithNewGuilds(old(m.Snapshot()), guilds)
    ensures m.file == old(m.file) && m.backup == old(m.backup)
    ensures old(m.Valid()) ==> m.Valid()
  {
    ghost var base := m.Snapshot();
    var n := 0;
    while n < |guildOrder|
      invariant 0 <= n <= |guildOrder|
      invariant m.Snapshot() == NewGuildsOver(base, guildOrder[..n])
      invariant m.file == old(m.file) && m.backup == old(m.backup)
      invariant old(m.Valid()) ==> m.Valid()
    {
      var id := guildOrder[n];
      assert guildOrder[..n + 1][..n] == guildOrder[..n];
      PutDefaultIfMissing(m, id);
      n := n + 1;
    }
    assert guildOrder[..n] == guildOrder;
    NewGuildsOverIsWith(base, guildOrder);
    ListedIsKeys(guildOrder, guilds);
  }

  /**
   * `readyLoader` on a bot without shard info: step one's leaves are never
   * queued, so it changes nothing; then the JSON is read (falling back to
   * the backup), every saved key is handled, every visible guild without a
   * record gets a default one, and the overwrite runs once.
   * `keyOrder` and `guildOrder` are the orders in which the JSON object's
   * keys and the bot's guilds are visited.
   */
  method ReadyLoader(m: NightFuryManager, primary: ReadOutcome, backup: ReadOutcome,
                     guilds: map<int, LiveGuild>, keyOrder: seq<int>, guildOrder: seq<int>,
                     writeOk: bool, copyOk: bool) returns (r: Result<bool>)
    requires forall k :: k in guilds ==> WellFormed(guilds[k])
    requires GuildsJson(primary, backup).Some? ==>
      var json := GuildsJson(primary, backup).value;
      (forall j :: 0 <= j < |keyOrder| ==> keyOrder[j] in json)
      && (forall k :: k in json ==> k in keyOrder)
    requires forall j :: 0 <= j < |guildOrder| ==> guildOrder[j] in guilds
    requires forall k :: k in guilds ==> k in guildOrder
    modifies m
    ensures r == Ok(false) <==> GuildsJson(primary, backup).None?
    ensures r == Ok(false) ==> unchanged(m)
    ensures r.Err? <==> GuildsJson(primary, backup).Some? && LoadThrows(GuildsJson(primary, backup).value, guilds)
    ensures r == Ok(true) ==>
      m.Snapshot() == AfterLoad(old(m.Snapshot()), GuildsJson(primary, backup).value, guilds)
      && m.file == (if writeOk then m.Snapshot() else old(m.file))
      && m.backup == (if writeOk && copyOk then m.Snapshot() else old(m.backup))
    ensures old(m.Valid()) && r == Ok(true) ==> m.Valid()
  {
    var found := GuildsJson(primary, backup);
    if found.None? {
      return Ok(false);
    }
    var json := found.value;
    ghost var start := m.Snapshot();
    r := HandleLoadedJson(m, json, guilds, keyOrder);
    if r.Err? {
      return;
    }
    PutNewGuilds(m, guilds.Keys, guildOrder);
    ghost var loaded := m.Snapshot();
    assert loaded == AfterLoad(start, json, guilds);
    ghost var valid := m.Valid();
    m.Overwrite(writeOk, copyOk);
    assert valid ==> m.Valid();
    return Ok(true);
  }
}
