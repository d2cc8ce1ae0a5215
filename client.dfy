/**
 * The bot client's own state and event rules: the cooldown table with
 * expire-on-read and periodic cleaning, the per-command use counters, the
 * scheduled-futures table (the `me.kgustave` client), the message-id cache
 * behind `linkIds` / `linkCall`, prefix parsing in `onMessageReceived`, the
 * welcome debounce in `onGuildMemberJoin`, `isGood`, and the main tree's
 * `searchCommand`.
 *
 * Time is an explicit `now: int` in whole seconds; a cooldown entry holds
 * the second it expires at.
 */
module Client {
  import opened Util
  import Commands
  import CommandIndex

  // ------------------------------------------------- the cooldown table

  /** `getRemainingCooldown`'s answer: whole seconds until expiry, 0 when absent or expired. */
  function Remaining(cooldowns: map<string, int>, name: string, now: int): nat
  {
    if name in cooldowns && cooldowns[name] - now > 0 then cooldowns[name] - now else 0
  }

  /** The table after `getRemainingCooldown`: an expired entry is removed by the read. */
  function AfterRead(cooldowns: map<string, int>, name: string, now: int): map<string, int>
  {
    if name in cooldowns && cooldowns[name] - now <= 0 then cooldowns - {name} else cooldowns
  }

  /** The table after `applyCooldown(name, seconds)` at `now`. */
  function Applied(cooldowns: map<string, int>, name: string, seconds: int, now: int): map<string, int>
  {
    cooldowns[name := now + seconds]
  }

  /** The table after `cleanCooldowns` at `now`: entries that expire before `now` are gone. */
  function Cleaned(cooldowns: map<string, int>, now: int): map<string, int>
  {
    map k | k in cooldowns && !(cooldowns[k] < now) :: cooldowns[k]
  }

  /** A cooldown applied for `seconds` blocks for exactly that long, counting down. */
  lemma AppliedBlocksFor(cooldowns: map<string, int>, name: string, seconds: int, now: int, t: int)
    requires now <= t
    ensures Remaining(Applied(cooldowns, name, seconds, now), name, t) > 0 <==> t < now + seconds
    ensures t < now + seconds ==> Remaining(Applied(cooldowns, name, seconds, now), name, t) == now + seconds - t
  {
  }

  /** Applying a cooldown leaves every other key's answer as it was. */
  lemma AppliedKeepsOthers(cooldowns: map<string, int>, name: string, seconds: int, now: int, other: string, t: int)
    requires other != name
    ensures Remaining(Applied(cooldowns, name, seconds, now), other, t) == Remaining(cooldowns, other, t)
  {
  }

  /**
   * A read drops only the key it reads, and only once it has expired; no
   * key's answer, at that instant or any later one, changes because of it.
   */
  lemma ReadKeepsAnswers(cooldowns: map<string, int>, name: string, now: int, other: string, t: int)
    requires now <= t
    ensures AfterRead(cooldowns, name, now).Keys <= cooldowns.Keys
    ensures cooldowns.Keys - AfterRead(cooldowns, name, now).Keys <= {name}
    ensures Remaining(AfterRead(cooldowns, name, now), other, t) == Remaining(cooldowns, other, t)
  {
  }

  /**
   * Cleaning removes exactly the entries that expired before `now`, keeps
   * the others unchanged, and changes no key's answer at `now` or later.
   */
  lemma CleanedKeepsAnswers(cooldowns: map<string, int>, now: int, k: string, t: int)
    requires now <= t
    ensures k in Cleaned(cooldowns, now) <==> k in cooldowns && cooldowns[k] >= now
    ensures k in Cleaned(cooldowns, now) ==> Cleaned(cooldowns, now)[k] == cooldowns[k]
    ensures Remaining(Cleaned(cooldowns, now), k, t) == Remaining(cooldowns, k, t)
  {
  }

  /** Cleaning at `t1` and then at a later `t2` is cleaning at `t2`. */
  lemma CleanedTwice(cooldowns: map<string, int>, t1: int, t2: int)
    requires t1 <= t2
    ensures Cleaned(Cleaned(cooldowns, t1), t2) == Cleaned(cooldowns, t2)
  {
  }

  // ----------------------------------------------------- the use counters

  /** `uses.getOrDefault(name, 0)`. */
  function UsesOf(uses: map<string, nat>, name: string): nat
  {
    if name in uses then uses[name] else 0
  }

  // ------------------------------------------------------------ futures

  /** A `ScheduledFuture`, known by identity. */
  datatype Future = Future(id: nat)

  // ------------------------------------------------------ the client

  class Client {
    /** Cooldown name to the second it expires at. */
    var cooldowns: map<string, int>
    /** Command name to the number of calls. */
    var uses: map<string, nat>
    /** Lower-cased key to a pending future. */
    var scheduled: map<string, Future>
    /** The futures `cancel(false)` was called on, in order. */
    var cancelled: seq<Future>
    /** Message id to the messages sent in reply to it. */
    var callCache: map<nat, set<nat>>

    constructor ()
      ensures cooldowns == map[] && uses == map[] && scheduled == map[]
      ensures cancelled == [] && callCache == map[]
    {
      cooldowns := map[];
      uses := map[];
      scheduled := map[];
      cancelled := [];
      callCache := map[];
    }

    /** `getRemainingCooldown(name)` at `now`. */
    method GetRemainingCooldown(name: string, now: int) returns (r: nat)
      modifies this`cooldowns
      ensures r == Remaining(old(cooldowns), name, now)
      ensures cooldowns == AfterRead(old(cooldowns), name, now)
    {
      if name in cooldowns {
        var time := cooldowns[name] - now;
        if time <= 0 {
          cooldowns := cooldowns - {name};
          r := 0;
        } else {
          r := time;
        }
      } else {
        r := 0;
      }
    }

    /** `applyCooldown(name, seconds)` at `now`: the expiry is overwritten. */
    method ApplyCooldown(name: string, seconds: int, now: int)
      modifies this`cooldowns
      ensures cooldowns == Applied(old(cooldowns), name, seconds, now)
    {
      cooldowns := cooldowns[name := now + seconds];
    }

    /**
     * `cleanCooldowns()` at `now`: the keys that expired before `now` are
     * collected, in the map's iteration order `order`, then removed.
     */
    method CleanCooldowns(now: int, order: seq<string>)
      requires forall k :: k in cooldowns ==> k in order
      modifies this`cooldowns
      ensures cooldowns == Cleaned(old(cooldowns), now)
    {
      var stale: seq<string> := [];
      var i := 0;
      while i < |order|
        invariant 0 <= i <= |order|
        invariant forall k :: k in stale <==> k in order[..i] && k in cooldowns && cooldowns[k] < now
      {
        if order[i] in cooldowns && cooldowns[order[i]] < now {
          stale := stale + [order[i]];
        }
        assert order[..i + 1] == order[..i] + [order[i]];
        i := i + 1;
      }
      assert order[..i] == order;
      var j := 0;
      while j < |stale|
        invariant 0 <= j <= |stale|
        invariant forall k :: k in cooldowns <==> k in old(cooldowns) && k !in stale[..j]
        invariant forall k :: k in cooldowns ==> cooldowns[k] == old(cooldowns)[k]
      {
        assert stale[..j + 1] == stale[..j] + [stale[j]];
        cooldowns := cooldowns - {stale[j]};
        j := j + 1;
      }
      assert stale[..j] == stale;
      assert cooldowns.Keys == Cleaned(old(cooldowns), now).Keys;
    }

    /** `getUsesFor(command)`. */
    function GetUsesFor(name: string): nat
      reads this
    {
      UsesOf(uses, name)
    }

    /** `incrementUses(command)` in the main trees: one more for this name, no other counter moves. */
    method IncrementUses(name: string)
      modifies this`uses
      ensures GetUsesFor(name) == old(GetUsesFor(name)) + 1
      ensures forall k :: k != name ==> GetUsesFor(k) == old(GetUsesFor(k))
      ensures uses.Keys == old(uses.Keys) + {name}
    {
      uses := uses[name := UsesOf(uses, name) + 1];
    }

    /**
     * `incrementUses(command)` in the rewrite, whose `uses` is a
     * case-insensitive map: names that differ only in case share a counter.
     */
    method IncrementUsesIgnoreCase(name: string)
      modifies this`uses
      ensures forall k :: EqIgnoreCase(k, name) ==> GetUsesFor(Lower(k)) == old(GetUsesFor(Lower(name))) + 1
      ensures forall k :: k != Lower(name) ==> GetUsesFor(k) == old(GetUsesFor(k))
    {
      uses := uses[Lower(name) := UsesOf(uses, Lower(name)) + 1];
    }

    /** `hasFuture(key)`: keys are compared lower-cased. */
    predicate HasFuture(key: string)
      reads this
    {
      Lower(key) in scheduled
    }

    /** `saveFuture(key, future)`: any spelling of the key finds it afterwards. */
    method SaveFuture(key: string, future: Future)
      modifies this`scheduled
      ensures scheduled == old(scheduled)[Lower(key) := future]
      ensures forall other :: EqIgnoreCase(other, key) ==> HasFuture(other) && scheduled[Lower(other)] == future
    {
      scheduled := scheduled[Lower(key) := future];
    }

    /** `removeFuture(key)`: no spelling of the key finds it afterwards. */
    method RemoveFuture(key: string)
      modifies this`scheduled
      ensures scheduled == old(scheduled) - {Lower(key)}
      ensures forall other :: EqIgnoreCase(other, key) ==> !HasFuture(other)
    {
      scheduled := scheduled - {Lower(key)};
    }

    /** `cancelFuture(key)`: the stored future, if any, is cancelled, then the entry is removed. */
    method CancelFuture(key: string)
      modifies this`scheduled, this`cancelled
      ensures cancelled == old(cancelled) + (if Lower(key) in old(scheduled) then [old(scheduled)[Lower(key)]] else [])
      ensures scheduled == old(scheduled) - {Lower(key)}
      ensures forall other :: EqIgnoreCase(other, key) ==> !HasFuture(other)
    {
      if Lower(key) in scheduled {
        cancelled := cancelled + [scheduled[Lower(key)]];
      }
      RemoveFuture(key);
    }

    /**
     * `cleanSchedule()`: the keys whose future is done (`done`, the
     * executor's state) or was cancelled are collected in iteration order
     * `order`, then removed.
     */
    method CleanSchedule(done: set<Future>, order: seq<string>)
      requires forall k :: k in scheduled ==> k in order
      modifies this`scheduled
      ensures scheduled == map k | k in old(scheduled) && !Finished(old(scheduled)[k], done) :: old(scheduled)[k]
    {
      var stale: seq<string> := [];
      var i := 0;
      while i < |order|
        invariant 0 <= i <= |order|
        invariant forall k :: k in stale <==> k in order[..i] && k in scheduled && Finished(scheduled[k], done)
      {
        if order[i] in scheduled && Finished(scheduled[order[i]], done) {
          stale := stale + [order[i]];
        }
        assert order[..i + 1] == order[..i] + [order[i]];
        i := i + 1;
      }
      assert order[..i] == order;
      var j := 0;
      while j < |stale|
        invariant 0 <= j <= |stale|
        invariant forall k :: k in scheduled <==> k in old(scheduled) && k !in stale[..j]
        invariant forall k :: k in scheduled ==> scheduled[k] == old(scheduled)[k]
      {
        assert stale[..j + 1] == stale[..j] + [stale[j]];
        scheduled := scheduled - {stale[j]};
        j := j + 1;
      }
      assert stale[..j] == stale;
    }

    /** `isDone || isCancelled`. */
    predicate Finished(f: Future, done: set<Future>)
      reads this
    {
      f in done || f in cancelled
    }

    /** The messages cached for `id` (`callCache[id]`, empty when absent). */
    function CachedFor(id: nat): set<nat>
      reads this
    {
      if id in callCache then callCache[id] else {}
    }

    /** The main trees' `linkIds(id, message)`: the message joins the set for `id`. */
    method LinkIds(id: nat, message: nat)
      modifies this`callCache
      ensures callCache == old(callCache)[id := old(CachedFor(id)) + {message}]
      ensures message in CachedFor(id) && old(CachedFor(id)) <= CachedFor(id)
    {
      callCache := callCache[id := CachedFor(id) + {message}];
    }

    /** The rewrite's `linkCall(id, message)`: as `linkIds`, but only for guild messages. */
    method LinkCall(id: nat, message: nat, fromGuild: bool)
      modifies this`callCache
      ensures !fromGuild ==> callCache == old(callCache)
      ensures fromGuild ==> callCache == old(callCache)[id := old(CachedFor(id)) + {message}]
    {
      if !fromGuild {
        return;
      }
      LinkIds(id, message);
    }

    /**
     * `onGuildMemberJoin`: with a welcome channel, a welcome message
     * (always present in the main trees) and permission to talk, the
     * per-user-and-guild cooldown is read; the parsed `message` is sent
     * only if that cooldown is over and it has 1 to 2000 characters, and
     * sending starts a 100 second cooldown.
     */
    method OnGuildMemberJoin(hasChannel: bool, hasMessage: bool, canTalk: bool,
                             user: nat, guild: nat, message: string, now: int) returns (sent: Option<string>)
      modifies this`cooldowns
      ensures sent == (if WelcomeSent(old(cooldowns), hasChannel && hasMessage && canTalk, user, guild, message, now)
                       then Some(message) else None)
      ensures cooldowns == AfterWelcome(old(cooldowns), hasChannel && hasMessage && canTalk, user, guild, message, now)
    {
      if !hasChannel || !hasMessage || !canTalk {
        return None;
      }
      var key := WelcomeKey(user, guild);
      var remaining := GetRemainingCooldown(key, now);
      if remaining > 0 {
        return None;
      }
      if |message| == 0 || |message| > 2000 {
        return None;
      }
      sent := Some(message);
      ApplyCooldown(key, 100, now);
    }
  }

  // ------------------------------------------------------------ welcomes

  /** `"welcomes|U:<user>|G:<guild>"`. */
  function WelcomeKey(user: nat, guild: nat): string
  {
    "welcomes|U:" + NatToString(user) + "|G:" + NatToString(guild)
  }

  /** Whether a join sends the welcome; `ready` is: channel, message and permission present. */
  predicate WelcomeSent(cooldowns: map<string, int>, ready: bool, user: nat, guild: nat, message: string, now: int)
  {
    ready && Remaining(cooldowns, WelcomeKey(user, guild), now) == 0 && 0 < |message| <= 2000
  }

  /** The cooldown table after a join. */
  function AfterWelcome(cooldowns: map<string, int>, ready: bool, user: nat, guild: nat, message: string, now: int): map<string, int>
  {
    var key := WelcomeKey(user, guild);
    if !ready then cooldowns
    else if WelcomeSent(cooldowns, ready, user, guild, message, now) then Applied(AfterRead(cooldowns, key, now), key, 100, now)
    else AfterRead(cooldowns, key, now)
  }

  /** Different users or guilds never share a welcome cooldown. */
  lemma WelcomeKeyInjective(u1: nat, g1: nat, u2: nat, g2: nat)
    ensures WelcomeKey(u1, g1) == WelcomeKey(u2, g2) <==> u1 == u2 && g1 == g2
  {
    Commands.TwoIdInjective("welcomes|U:", "|G:", u1, g1, u2, g2);
  }

  /**
   * Once a welcome is sent at `now`, the same member joining the same
   * guild again gets none for the next 100 seconds, whatever the message;
   * from then on the cooldown no longer holds it back.
   */
  lemma WelcomeDebounced(cooldowns: map<string, int>, user: nat, guild: nat, message: string, now: int,
                         again: string, t: int)
    requires WelcomeSent(cooldowns, true, user, guild, message, now)
    requires now <= t
    ensures t < now + 100 ==> !WelcomeSent(AfterWelcome(cooldowns, true, user, guild, message, now), true, user, guild, again, t)
    ensures t >= now + 100 ==>
      (WelcomeSent(AfterWelcome(cooldowns, true, user, guild, message, now), true, user, guild, again, t) <==> 0 < |again| <= 2000)
  {
    AppliedBlocksFor(AfterRead(cooldowns, WelcomeKey(user, guild), now), WelcomeKey(user, guild), 100, now, t);
  }

  /** A welcome to one member leaves the cooldowns of every other member and guild as they were. */
  lemma WelcomeKeepsOthers(cooldowns: map<string, int>, user: nat, guild: nat, message: string, now: int,
                           u2: nat, g2: nat, t: int)
    requires (u2, g2) != (user, guild) && now <= t
    ensures Remaining(AfterWelcome(cooldowns, true, user, guild, message, now), WelcomeKey(u2, g2), t)
         == Remaining(cooldowns, WelcomeKey(u2, g2), t)
  {
    WelcomeKeyInjective(user, guild, u2, g2);
    var key := WelcomeKey(user, guild);
    ReadKeepsAnswers(cooldowns, key, now, WelcomeKey(u2, g2), t);
    AppliedKeepsOthers(AfterRead(cooldowns, key, now), key, 100, now, WelcomeKey(u2, g2), t);
  }

  // ------------------------------------------------------- isGood

  datatype Member = Member(id: nat, isBot: bool)

  /** `members.filter { it.user.isBot }.count()`. */
  function BotCount(members: seq<Member>): (r: nat)
    ensures r <= |members|
  {
    if members == [] then 0
    else BotCount(members[..|members| - 1]) + (if members[|members| - 1].isBot then 1 else 0)
  }

  /** `getMemberById(id) != null`. */
  predicate HasMember(members: seq<Member>, id: nat)
  {
    exists i :: 0 <= i < |members| && members[i].id == id
  }

  /** The main tree's `isGood`: at most 30 bots, or the developer is a member. */
  predicate IsGood(members: seq<Member>, devId: nat)
  {
    BotCount(members) <= 30 || HasMember(members, devId)
  }

  /** The rewrite's `isGood`: a blacklist refuses, a join whitelist admits, otherwise the main rule. */
  predicate IsGoodRewrite(blacklisted: bool, whitelisted: bool, members: seq<Member>, devId: nat)
  {
    if blacklisted then false else if whitelisted then true else IsGood(members, devId)
  }

  /** A guild of at most 30 members is always good, and so is one the developer is in. */
  lemma SmallGuildIsGood(members: seq<Member>, devId: nat)
    ensures |members| <= 30 ==> IsGood(members, devId)
    ensures HasMember(members, devId) ==> IsGood(members, devId)
  {
  }

  /** Only bots count: a guild with no bots is good however large it is. */
  lemma {:induction false} NoBotsNoCount(members: seq<Member>)
    requires forall i :: 0 <= i < |members| ==> !members[i].isBot
    ensures BotCount(members) == 0
    decreases |members|
  {
    if members != [] {
      NoBotsNoCount(members[..|members| - 1]);
    }
  }

  /** The rewrite's rule: the blacklist wins over the whitelist, and an unlisted guild is judged as in the main tree. */
  lemma IsGoodRewriteListed(whitelisted: bool, members: seq<Member>, devId: nat)
    ensures !IsGoodRewrite(true, whitelisted, members, devId)
    ensures IsGoodRewrite(false, true, members, devId)
    ensures IsGoodRewrite(false, false, members, devId) <==> IsGood(members, devId)
  {
  }

  // ------------------------------------------------------ prefix parsing

  /** `prefixes.find { raw.startsWith(it, true) }`: the first matching prefix. */
  function FirstPrefix(prefixes: seq<string>, raw: string): (r: Option<nat>)
    ensures r.Some? ==> r.value < |prefixes| && StartsWithIgnoreCase(raw, prefixes[r.value])
                        && forall j :: 0 <= j < r.value ==> !StartsWithIgnoreCase(raw, prefixes[j])
    ensures r.None? <==> forall j :: 0 <= j < |prefixes| ==> !StartsWithIgnoreCase(raw, prefixes[j])
    decreases |prefixes|
  {
    if prefixes == [] then None
    else if StartsWithIgnoreCase(raw, prefixes[0]) then Some(0)
    else match FirstPrefix(prefixes[1..], raw)
      case None => None
      case Some(i) => Some(i + 1)
  }

  /**
   * The prefix a message is taken under: the default prefix from anywhere,
   * else, in a guild (`guildPrefixes` present), its first matching prefix.
   */
  function PrefixUsed(raw: string, defaultPrefix: string, guildPrefixes: Option<seq<string>>): (r: Option<string>)
    ensures r.Some? ==> StartsWithIgnoreCase(raw, r.value) && |r.value| <= |raw|
    ensures StartsWithIgnoreCase(raw, defaultPrefix) ==> r == Some(defaultPrefix)
    ensures r.Some? <==> StartsWithIgnoreCase(raw, defaultPrefix)
                         || (guildPrefixes.Some? && exists j :: 0 <= j < |guildPrefixes.value|
                                                      && StartsWithIgnoreCase(raw, guildPrefixes.value[j]))
    ensures r.Some? && r.value != defaultPrefix ==>
      guildPrefixes.Some? && exists j :: 0 <= j < |guildPrefixes.value| && guildPrefixes.value[j] == r.value
                                        && forall j' :: 0 <= j' < j ==> !StartsWithIgnoreCase(raw, guildPrefixes.value[j'])
  {
    if StartsWithIgnoreCase(raw, defaultPrefix) then Some(defaultPrefix)
    else match guildPrefixes
      case None => None
      case Some(ps) =>
        match FirstPrefix(ps, raw)
        case None => None
        case Some(i) => Some(ps[i])
  }

  /** A command call: the prefix used, the command name and the text after it. */
  datatype Call = Call(prefix: string, name: string, args: string)

  /** `substring(prefix.length).trim().split(\s+, 2)` into a call. */
  function SplitCall(raw: string, p: string): (r: Call)
    requires |p| <= |raw|
  {
    var parts := SplitFirstSpace(KotlinTrim(raw[|p|..]));
    Call(p, parts[0], if |parts| == 2 then parts[1] else "")
  }

  /** The main trees' `onMessageReceived` up to the lookup: bots ignored, content trimmed first. */
  function ParseMain(fromBot: bool, content: string, defaultPrefix: string, guildPrefixes: Option<seq<string>>): Option<Call>
  {
    if fromBot then None
    else
      var raw := KotlinTrim(content);
      match PrefixUsed(raw, defaultPrefix, guildPrefixes)
      case None => None
      case Some(p) => Some(SplitCall(raw, p))
  }

  /** The rewrite's parsing: the content is not trimmed first and the name is lower-cased. */
  function ParseRewrite(fromBot: bool, content: string, defaultPrefix: string, guildPrefixes: Option<seq<string>>): Option<Call>
  {
    if fromBot then None
    else match PrefixUsed(content, defaultPrefix, guildPrefixes)
      case None => None
      case Some(p) => var c := SplitCall(content, p); Some(c.(name := Lower(c.name)))
  }

  /** The arguments a `CommandEvent` of the main trees receives: trimmed again. */
  function EventArgs(c: Call): string
  {
    KotlinTrim(c.args)
  }

  /** A message typed as prefix, command name and (optionally) arguments. */
  function Typed(prefix: string, name: string, args: string): string
  {
    prefix + name + (if args == [] then "" else " " + args)
  }

  /**
   * Parsing yields a call only under a prefix the message starts with
   * (the default one whenever it matches), and the name is one token.
   */
  lemma ParseMainShape(fromBot: bool, content: string, defaultPrefix: string, guildPrefixes: Option<seq<string>>)
    ensures ParseMain(fromBot, content, defaultPrefix, guildPrefixes).Some? <==>
      !fromBot && PrefixUsed(KotlinTrim(content), defaultPrefix, guildPrefixes).Some?
    ensures ParseMain(fromBot, content, defaultPrefix, guildPrefixes).Some? ==>
      var c := ParseMain(fromBot, content, defaultPrefix, guildPrefixes).value;
      StartsWithIgnoreCase(KotlinTrim(content), c.prefix)
      && (StartsWithIgnoreCase(KotlinTrim(content), defaultPrefix) ==> c.prefix == defaultPrefix)
      && forall k :: 0 <= k < |c.name| ==> !RegexSpace(c.name[k])
  {
  }

  /** A message whose ends are not whitespace trims to itself. */
  lemma TrimmedEnds(s: string)
    requires s != [] && !KotlinSpace(s[0]) && !KotlinSpace(s[|s| - 1])
    ensures KotlinTrim(s) == s
  {
    TrimIsNoOpOnTrimmed(s, KotlinSpace);
  }

  /**
   * A message typed as the default prefix, a one-word name and arguments
   * parses back into exactly that prefix, name and arguments.
   */
  lemma ParseMainRoundTrip(prefix: string, name: string, args: string, guildPrefixes: Option<seq<string>>)
    requires prefix != [] && !KotlinSpace(prefix[0])
    requires Word(name) && !KotlinSpace(name[0]) && !KotlinSpace(name[|name| - 1])
    requires args == [] || (!RegexSpace(args[0]) && !KotlinSpace(args[|args| - 1]))
    ensures ParseMain(false, Typed(prefix, name, args), prefix, guildPrefixes) == Some(Call(prefix, name, args))
  {
    var content := Typed(prefix, name, args);
    TypedShape(prefix, name, args);
    assert PrefixUsed(content, prefix, guildPrefixes) == Some(prefix);
    SplitTyped(prefix, name, args);
  }

  /** The typed message is trimmed and starts with its prefix. */
  lemma TypedShape(prefix: string, name: string, args: string)
    requires prefix != [] && !KotlinSpace(prefix[0])
    requires Word(name) && !KotlinSpace(name[0]) && !KotlinSpace(name[|name| - 1])
    requires args == [] || (!RegexSpace(args[0]) && !KotlinSpace(args[|args| - 1]))
    ensures KotlinTrim(Typed(prefix, name, args)) == Typed(prefix, name, args)
    ensures StartsWithIgnoreCase(Typed(prefix, name, args), prefix)
    ensures Typed(prefix, name, args)[|prefix|..] == Typed([], name, args)
  {
    var tail := Typed([], name, args);
    var content := Typed(prefix, name, args);
    assert content == prefix + tail;
    assert tail[|tail| - 1] == if args == [] then name[|name| - 1] else args[|args| - 1];
    assert content[0] == prefix[0] && content[|content| - 1] == tail[|tail| - 1];
    TrimmedEnds(content);
    LowerOfConcat(prefix, tail);
  }

  /** The text after the prefix trims to itself and splits into the name and the arguments. */
  lemma SplitTyped(prefix: string, name: string, args: string)
    requires Word(name) && !KotlinSpace(name[0]) && !KotlinSpace(name[|name| - 1])
    requires args == [] || (!RegexSpace(args[0]) && !KotlinSpace(args[|args| - 1]))
    requires |prefix| <= |Typed(prefix, name, args)| && Typed(prefix, name, args)[|prefix|..] == Typed([], name, args)
    ensures SplitCall(Typed(prefix, name, args), prefix) == Call(prefix, name, args)
  {
    var tail := Typed([], name, args);
    assert tail[0] == name[0];
    assert tail[|tail| - 1] == if args == [] then name[|name| - 1] else args[|args| - 1];
    TrimmedEnds(tail);
    if args != [] {
      assert tail == name + " " + args;
      FirstSpaceAfterWord(name, args);
    }
  }

  /** On content that is already trimmed the rewrite parses as the main trees, with the name lower-cased. */
  lemma RewriteAgreesOnTrimmed(fromBot: bool, content: string, defaultPrefix: string, guildPrefixes: Option<seq<string>>)
    requires KotlinTrim(content) == content
    ensures ParseRewrite(fromBot, content, defaultPrefix, guildPrefixes) ==
      match ParseMain(fromBot, content, defaultPrefix, guildPrefixes)
      case None => None
      case Some(c) => Some(c.(name := Lower(c.name)))
  {
  }

  /** Leading whitespace is dropped by the main trees' trim. */
  lemma TrimDropsLeading(w: string, x: string)
    requires forall k :: 0 <= k < |w| ==> KotlinSpace(w[k])
    requires x != [] && !KotlinSpace(x[0]) && !KotlinSpace(x[|x| - 1])
    ensures KotlinTrim(w + x) == x
  {
    var s := w + x;
    var r := KotlinTrim(s);
    var t := TrimStartIndex(s, KotlinSpace);
    assert s[|w|] == x[0];
    assert s[|s| - 1] == x[|x| - 1];
    assert t <= |w|;
    assert r != [];
    assert r[0] == s[t];
    assert t == |w|;
    assert t + |r| == |s|;
    assert r == s[|w|..];
  }

  /**
   * The rewrite does not trim before matching the prefix: a space in
   * front of a call that the main trees accept makes the rewrite ignore it.
   */
  lemma RewriteIgnoresLeadingSpace(prefix: string, name: string)
    requires prefix != [] && !KotlinSpace(prefix[0])
    requires Word(name) && !KotlinSpace(name[0]) && !KotlinSpace(name[|name| - 1])
    ensures ParseMain(false, " " + Typed(prefix, name, ""), prefix, None) == Some(Call(prefix, name, ""))
    ensures ParseRewrite(false, " " + Typed(prefix, name, ""), prefix, None) == None
  {
    var typed := Typed(prefix, name, "");
    assert typed[0] == prefix[0] && typed[|typed| - 1] == name[|name| - 1];
    MainDropsLeadingSpace(typed, prefix);
    ParseMainRoundTrip(prefix, name, "", None);
    SpaceIsNoPrefix(typed, prefix);
    assert PrefixUsed(" " + typed, prefix, None) == None;
  }

  /** The main trees trim a leading space away before matching the prefix. */
  lemma MainDropsLeadingSpace(x: string, prefix: string)
    requires x != [] && !KotlinSpace(x[0]) && !KotlinSpace(x[|x| - 1])
    ensures ParseMain(false, " " + x, prefix, None) == ParseMain(false, x, prefix, None)
  {
    TrimDropsLeading(" ", x);
    TrimmedEnds(x);
  }

  /** A text starting with a space does not start with a prefix that does not. */
  lemma SpaceIsNoPrefix(x: string, prefix: string)
    requires prefix != [] && prefix[0] != ' '
    ensures !StartsWithIgnoreCase(" " + x, prefix)
  {
    assert Lower(" " + x)[0] == ' ';
    assert Lower(prefix)[0] != ' ';
  }

  // ------------------------------------------------------- searchCommand

  /** The main tree's `searchCommand`: the FIRST top-level command answering to the first token. */
  function SearchCommandMain(roots: seq<Commands.Cmd>, query: string): Option<Commands.Cmd>
  {
    var parts := SplitFirstSpace(query);
    match Commands.FirstChild(roots, parts[0])
    case None => None
    case Some(i) => Commands.FindChild(roots[i], if |parts| > 1 then parts[1] else "")
  }

  /**
   * When at most one top-level command answers to the first token, the
   * main tree's first-match search agrees with the index lookup that
   * dispatch uses (`commands[name]`, last match wins).
   */
  lemma SearchMainAgreesWithIndex(roots: seq<Commands.Cmd>, query: string)
    requires var head := SplitFirstSpace(query)[0];
      forall i, j :: (0 <= i < |roots| && 0 <= j < |roots| && Commands.IsForCommand(roots[i], head)
                      && Commands.IsForCommand(roots[j], head)) ==> i == j
    ensures SearchCommandMain(roots, query) == Commands.SearchCommand(roots, query)
  {
    var head := SplitFirstSpace(query)[0];
    var named := Commands.Projection(roots);
    var k := Lower(head);
    CommandIndex.BuiltIndexSpec(named);
    CommandIndex.AllKeysOwned(named, k);
    var index := CommandIndex.BuiltIndex(named);
    match Commands.FirstChild(roots, head)
    case None =>
      if k in index {
        Commands.IsForCommandKeys(roots[index[k]], head);
      }
    case Some(i) =>
      Commands.IsForCommandKeys(roots[i], head);
      assert k in CommandIndex.Keys(named[i]);
      Commands.IsForCommandKeys(roots[index[k]], head);
  }

  /**
   * A message of the default prefix, a top-level command's one-word name
   * and arguments reaches that command with those arguments, provided no
   * later top-level command also answers to the name.
   */
  lemma MessageReachesCommand(roots: seq<Commands.Cmd>, i: nat, prefix: string, args: string)
    requires i < |roots|
    requires forall j :: i < j < |roots| ==> !Commands.IsForCommand(roots[j], roots[i].name)
    requires prefix != [] && !KotlinSpace(prefix[0])
    requires var n := roots[i].name; Word(n) && !KotlinSpace(n[0]) && !KotlinSpace(n[|n| - 1])
    requires args == [] || (!RegexSpace(args[0]) && !KotlinSpace(args[|args| - 1]))
    ensures var c := ParseMain(false, Typed(prefix, roots[i].name, args), prefix, None);
      c.Some? && c.value.args == args && Commands.RootGet(roots, c.value.name) == Some(roots[i])
  {
    ParseMainRoundTrip(prefix, roots[i].name, args, None);
    Commands.RootGetOwnName(roots, i);
  }
}
