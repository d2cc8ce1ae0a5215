/**
 * The bot's fuzzy search over users, members, banned users, channels,
 * roles and guilds (`SearcherUtil`): a mention or an id query short-cuts
 * to one entry; otherwise every candidate falls in the first of four
 * tiers it matches (exact, equal ignoring case, case-insensitive prefix,
 * case-insensitive substring) and the search returns the whole best tier.
 */
module Searcher {
  import opened Util

  /** What a search reads of a user, member, channel, role or guild. */
  datatype Entry = Entry(id: string, name: string, nickname: Option<string>, discriminator: string)

  /**
   * The text compared with `equals`, the text compared ignoring case (and
   * lower-cased for `startsWith`/`contains`), and the discriminator every
   * candidate must carry, if any.
   */
  datatype Query = Query(exact: string, query: string, discriminator: Option<string>)

  /** The four `ArrayList`s a search fills. */
  datatype Buckets = Buckets(exact: seq<Entry>, wrongCase: seq<Entry>, startsWith: seq<Entry>, contains: seq<Entry>)

  /** A name and a four-digit discriminator split off a `name#1234` query. */
  datatype NameTag = NameTag(name: string, tag: string)

  // ---------------------------------------------------------------- tiers

  predicate Admitted(e: Entry, q: Query)
  {
    q.discriminator.None? || e.discriminator == q.discriminator.value
  }

  predicate ExactMatch(e: Entry, q: Query)
  {
    e.name == q.exact || (e.nickname.Some? && e.nickname.value == q.exact)
  }

  predicate WrongCaseMatch(e: Entry, q: Query)
  {
    EqIgnoreCase(e.name, q.query) || (e.nickname.Some? && EqIgnoreCase(e.nickname.value, q.query))
  }

  predicate PrefixMatch(e: Entry, q: Query)
  {
    StartsWith(Lower(e.name), Lower(q.query))
    || (e.nickname.Some? && StartsWith(Lower(e.nickname.value), Lower(q.query)))
  }

  predicate InfixMatch(e: Entry, q: Query)
  {
    Contains(Lower(e.name), Lower(q.query))
    || (e.nickname.Some? && Contains(Lower(e.nickname.value), Lower(q.query)))
  }

  /** The best tier a candidate matches: 0 exact … 3 substring, 4 none or skipped. */
  function TierOf(e: Entry, q: Query): (t: nat)
    ensures t <= 4
    ensures t == 4 <==> !Admitted(e, q) || !(ExactMatch(e, q) || WrongCaseMatch(e, q) || PrefixMatch(e, q) || InfixMatch(e, q))
  {
    if !Admitted(e, q) then 4
    else if ExactMatch(e, q) then 0
    else if WrongCaseMatch(e, q) then 1
    else if PrefixMatch(e, q) then 2
    else if InfixMatch(e, q) then 3
    else 4
  }

  /** The candidates of tier `t`, in iteration order. */
  function Tier(es: seq<Entry>, q: Query, t: nat): seq<Entry>
  {
    if es == [] then []
    else Tier(es[..|es| - 1], q, t) + (if TierOf(es[|es| - 1], q) == t then [es[|es| - 1]] else [])
  }

  /** The best tier any candidate reaches, 4 if none matches. */
  function Highest(es: seq<Entry>, q: Query): (t: nat)
    ensures t <= 4
  {
    if es == [] then 4
    else
      var h := Highest(es[..|es| - 1], q);
      var t := TierOf(es[|es| - 1], q);
      if t < h then t else h
  }

  /** What the source promises: the whole best non-empty tier, or nothing. */
  function Selected(es: seq<Entry>, q: Query): seq<Entry>
  {
    if Highest(es, q) == 4 then [] else Tier(es, q, Highest(es, q))
  }

  lemma {:induction false} TierMembers(es: seq<Entry>, q: Query, t: nat)
    ensures forall e :: e in Tier(es, q, t) <==> e in es && TierOf(e, q) == t
    decreases |es|
  {
    if es != [] {
      var p := es[..|es| - 1];
      TierMembers(p, q, t);
      assert es == p + [es[|es| - 1]];
    }
  }

  lemma {:induction false} HighestIsBest(es: seq<Entry>, q: Query)
    ensures forall e :: e in es ==> Highest(es, q) <= TierOf(e, q)
    ensures Highest(es, q) < 4 ==> exists e :: e in es && TierOf(e, q) == Highest(es, q)
    decreases |es|
  {
    if es != [] {
      var p := es[..|es| - 1];
      var last := es[|es| - 1];
      HighestIsBest(p, q);
      assert es == p + [last];
      if TierOf(last, q) < Highest(p, q) {
        assert last in es;
      } else if Highest(p, q) < 4 {
        var e :| e in p && TierOf(e, q) == Highest(p, q);
        assert e in es;
      }
    }
  }

  /**
   * Every returned candidate is in the list and in the best tier any
   * candidate reaches; every candidate of that tier is returned; nothing
   * is returned exactly when no candidate matches at all.
   */
  lemma SelectedIsBestTier(es: seq<Entry>, q: Query)
    ensures forall e :: e in Selected(es, q) <==> e in es && TierOf(e, q) == Highest(es, q) < 4
    ensures forall e :: e in es ==> Highest(es, q) <= TierOf(e, q)
    ensures Selected(es, q) == [] <==> forall e :: e in es ==> TierOf(e, q) == 4
  {
    TierMembers(es, q, Highest(es, q));
    HighestIsBest(es, q);
    if Highest(es, q) < 4 {
      var e :| e in es && TierOf(e, q) == Highest(es, q);
      assert e in Selected(es, q);
    }
  }

  // -------------------------------------------------------------- buckets

  /** One iteration of the `for` loop of a search. */
  function Place(b: Buckets, e: Entry, q: Query): Buckets
  {
    if !Admitted(e, q) then b
    else if ExactMatch(e, q) then b.(exact := b.exact + [e])
    else if b.exact == [] && WrongCaseMatch(e, q) then b.(wrongCase := b.wrongCase + [e])
    else if b.wrongCase == [] && PrefixMatch(e, q) then b.(startsWith := b.startsWith + [e])
    else if b.startsWith == [] && InfixMatch(e, q) then b.(contains := b.contains + [e])
    else b
  }

  /** The buckets after the loop has seen `es`. */
  function Sort(es: seq<Entry>, q: Query): Buckets
  {
    if es == [] then Buckets([], [], [], [])
    else Place(Sort(es[..|es| - 1], q), es[|es| - 1], q)
  }

  /** The `if(!exact.isEmpty()) return exact; …` cascade. */
  function Pick(b: Buckets): seq<Entry>
  {
    if b.exact != [] then b.exact
    else if b.wrongCase != [] then b.wrongCase
    else if b.startsWith != [] then b.startsWith
    else b.contains
  }

  /**
   * A bucket guarded by `isEmpty()` checks misses entries only while a
   * better bucket is non-empty, so once the better ones are empty it holds
   * its whole tier.
   */
  lemma {:induction false} SortHoldsTiers(es: seq<Entry>, q: Query)
    ensures Sort(es, q).exact == Tier(es, q, 0)
    ensures Tier(es, q, 0) == [] ==> Sort(es, q).wrongCase == Tier(es, q, 1)
    ensures Tier(es, q, 0) == [] && Tier(es, q, 1) == [] ==> Sort(es, q).startsWith == Tier(es, q, 2)
    ensures Tier(es, q, 0) == [] && Tier(es, q, 1) == [] && Tier(es, q, 2) == [] ==>
      Sort(es, q).contains == Tier(es, q, 3)
    decreases |es|
  {
    if es != [] {
      SortHoldsTiers(es[..|es| - 1], q);
    }
  }

  lemma {:induction false} TierEmptyIff(es: seq<Entry>, q: Query, t: nat)
    ensures Tier(es, q, t) == [] <==> forall e :: e in es ==> TierOf(e, q) != t
  {
    TierMembers(es, q, t);
    if Tier(es, q, t) != [] {
      assert Tier(es, q, t)[0] in Tier(es, q, t);
    }
  }

  /** The cascade over the buckets returns exactly the best tier. */
  lemma PickIsSelected(es: seq<Entry>, q: Query)
    ensures Pick(Sort(es, q)) == Selected(es, q)
  {
    SortHoldsTiers(es, q);
    HighestIsBest(es, q);
    var h := Highest(es, q);
    TierEmptyIff(es, q, 0);
    TierEmptyIff(es, q, 1);
    TierEmptyIff(es, q, 2);
    TierEmptyIff(es, q, 3);
    if h < 4 {
      var e :| e in es && TierOf(e, q) == h;
      TierMembers(es, q, h);
      assert e in Tier(es, q, h);
    }
  }

  /**
   * The body shared by every search: the `for` loop that fills the four
   * buckets, then the cascade that returns the first non-empty one.
   */
  method TieredSearch(es: seq<Entry>, q: Query) returns (result: seq<Entry>)
    ensures result == Selected(es, q)
  {
    var exact, wrongCase, startsWith, contains := [], [], [], [];
    var i := 0;
    while i < |es|
      invariant 0 <= i <= |es|
      invariant Buckets(exact, wrongCase, startsWith, contains) == Sort(es[..i], q)
    {
      var e := es[i];
      assert es[..i + 1][..i] == es[..i];
      if q.discriminator.Some? && e.discriminator != q.discriminator.value {
        i := i + 1;
        continue;
      }
      if ExactMatch(e, q) {
        exact := exact + [e];
      } else if exact == [] && WrongCaseMatch(e, q) {
        wrongCase := wrongCase + [e];
      } else if wrongCase == [] && PrefixMatch(e, q) {
        startsWith := startsWith + [e];
      } else if startsWith == [] && InfixMatch(e, q) {
        contains := contains + [e];
      }
      i := i + 1;
    }
    assert es[..|es|] == es;
    PickIsSelected(es, q);
    if exact != [] {
      return exact;
    }
    if wrongCase != [] {
      return wrongCase;
    }
    if startsWith != [] {
      return startsWith;
    }
    return contains;
  }

  // ------------------------------------------------------------- patterns

  /** The characters `.` does not match: `\n`, `\r`, U+0085, U+2028, U+2029. */
  predicate LineTerminator(c: char)
  {
    c == '\n' || c == '\r' || c == '\U{0085}' || c == '\U{2028}' || c == '\U{2029}'
  }

  /** The digits of `s` when `s` is `<` + `lead` + one or more digits + `>`. */
  function Bracketed(s: string, lead: string): (r: Option<string>)
    ensures r.Some? ==> r.value != [] && AllDigits(r.value) && s == "<" + lead + r.value + ">"
  {
    if |s| >= |lead| + 3 && s[0] == '<' && s[1..|lead| + 1] == lead && s[|s| - 1] == '>'
       && AllDigits(s[|lead| + 1..|s| - 1])
    then
      assert s == "<" + lead + s[|lead| + 1..|s| - 1] + ">";
      Some(s[|lead| + 1..|s| - 1])
    else None
  }

  lemma BracketedOf(lead: string, id: string)
    requires id != [] && AllDigits(id)
    ensures Bracketed("<" + lead + id + ">", lead) == Some(id)
  {
    var s := "<" + lead + id + ">";
    assert s[1..|lead| + 1] == lead;
    assert s[|lead| + 1..|s| - 1] == id;
  }

  /** `USER_MENTION = "<@!?(\\d+)>"`, the id it captures. */
  function UserMentionId(s: string): Option<string>
  {
    var plain := Bracketed(s, "@");
    if plain.Some? then plain else Bracketed(s, "@!")
  }

  /** `<#(\\d+)>`. */
  function ChannelMentionId(s: string): Option<string>
  {
    Bracketed(s, "#")
  }

  /** `<@&(\\d+)>`. */
  function RoleMentionId(s: string): Option<string>
  {
    Bracketed(s, "@&")
  }

  /** Both spellings of a user mention give back the id, and nothing else matches. */
  lemma UserMentionRoundTrip(s: string, id: string)
    requires id != [] && AllDigits(id)
    ensures UserMentionId("<@" + id + ">") == Some(id)
    ensures UserMentionId("<@!" + id + ">") == Some(id)
    ensures UserMentionId(s) == Some(id) ==> s == "<@" + id + ">" || s == "<@!" + id + ">"
  {
    BracketedOf("@", id);
    BracketedOf("@!", id);
    var t := "<@!" + id + ">";
    assert t[1..2] == "@" && t[2] == '!';
    assert !AllDigits(t[2..|t| - 1]);
  }

  /** `[Ii][Dd]\\s*:\\s*(\\d+)`, the id it captures. */
  function IdQueryId(s: string): (r: Option<string>)
    ensures r.Some? ==> r.value != [] && AllDigits(r.value) && EndsWith(s, r.value)
  {
    if |s| >= 2 && (s[0] == 'I' || s[0] == 'i') && (s[1] == 'D' || s[1] == 'd') then
      var a := SpaceRunEnd(s, 2);
      if a < |s| && s[a] == ':' then
        var b := SpaceRunEnd(s, a + 1);
        if b < |s| && AllDigits(s[b..]) then Some(s[b..]) else None
      else None
    else None
  }

  lemma IdQueryOf(id: string)
    requires id != [] && AllDigits(id)
    ensures IdQueryId("id:" + id) == Some(id)
    ensures IdQueryId("ID : " + id) == Some(id)
  {
    var s := "id:" + id;
    assert SpaceRunEnd(s, 2) == 2;
    assert !RegexSpace(s[3]);
    assert SpaceRunEnd(s, 3) == 3;
    assert s[3..] == id;
    var t := "ID : " + id;
    assert RegexSpace(t[2]) && !RegexSpace(t[3]);
    assert SpaceRunEnd(t, 3) == 3;
    assert SpaceRunEnd(t, 2) == 3;
    assert !RegexSpace(t[5]);
    assert SpaceRunEnd(t, 5) == 5;
    assert SpaceRunEnd(t, 4) == 5;
    assert t[5..] == id;
  }

  /**
   * `query.matches("^.*#\\d{4}$")`, then `discrim = query.substring(len - 4)`
   * and `query = query.substring(0, len - 5).trim()`.
   */
  function SplitDiscriminator(s: string): (r: Option<NameTag>)
    ensures r.Some? ==> |s| >= 5 && s == s[..|s| - 5] + "#" + r.value.tag
    ensures r.Some? ==> |r.value.tag| == 4 && AllDigits(r.value.tag)
    ensures r.Some? ==> r.value.name == JavaTrim(s[..|s| - 5])
  {
    if |s| >= 5 && s[|s| - 5] == '#' && AllDigits(s[|s| - 4..])
       && (forall k :: 0 <= k < |s| - 5 ==> !LineTerminator(s[k]))
    then
      assert s == s[..|s| - 5] + "#" + s[|s| - 4..];
      Some(NameTag(JavaTrim(s[..|s| - 5]), s[|s| - 4..]))
    else None
  }

  lemma SplitDiscriminatorOf(name: string, tag: string)
    requires |tag| == 4 && AllDigits(tag)
    requires forall k :: 0 <= k < |name| ==> !LineTerminator(name[k])
    ensures SplitDiscriminator(name + "#" + tag) == Some(NameTag(JavaTrim(name), tag))
  {
    var s := name + "#" + tag;
    assert s[..|s| - 5] == name;
    assert s[|s| - 4..] == tag;
  }

  /** A mention ends in `>`, so it never reads as `name#1234`. */
  lemma MentionIsNoTag(s: string)
    requires UserMentionId(s).Some?
    ensures SplitDiscriminator(s).None?
  {
    assert s[|s| - 1] == '>';
    assert !IsDigit(s[|s| - 4..][3]);
  }

  /** The query of a user, member or ban search once a `#1234` suffix is split off. */
  function NameQuery(query: string): (q: Query)
    ensures q.exact == q.query
  {
    match SplitDiscriminator(query)
    case Some(nt) => Query(nt.name, nt.name, Some(nt.tag))
    case None => Query(query, query, None)
  }

  /** `getXById`: the entry with that id. */
  function FindById(es: seq<Entry>, id: string): (r: Option<Entry>)
    ensures r.Some? ==> r.value in es && r.value.id == id
    ensures r.None? <==> forall e :: e in es ==> e.id != id
  {
    if es == [] then None
    else if es[0].id == id then Some(es[0])
    else
      var r := FindById(es[1..], id);
      assert forall e :: e in es ==> e == es[0] || e in es[1..];
      r
  }

  // ------------------------------------------------------------- searches

  /**
   * `searchUsers`: a mention gives the cached user with that id or, when
   * it is not cached, the one `retrieveUserById` fetched (`fetched`, None
   * when the request failed); otherwise the tiers, discriminator first.
   */
  method SearchUsers(query: string, users: seq<Entry>, fetched: Option<Entry>) returns (r: seq<Entry>)
    ensures UserMentionId(query).Some? ==>
      var cached := FindById(users, UserMentionId(query).value);
      r == (if cached.Some? then [cached.value] else if fetched.Some? then [fetched.value] else [])
    ensures UserMentionId(query).None? ==> r == Selected(users, NameQuery(query))
  {
    var id := UserMentionId(query);
    if id.Some? {
      var u := FindById(users, id.value);
      if u.Some? {
        return [u.value];
      }
      if fetched.Some? {
        return [fetched.value];
      }
      return [];
    }
    r := TieredSearch(users, NameQuery(query));
  }

  /**
   * `searchMembers`: a mention of a member of the guild gives that
   * member; any other query, a mention of someone else included, goes to
   * the tiers, which match the user name or the nickname.
   */
  method SearchMembers(query: string, members: seq<Entry>) returns (r: seq<Entry>)
    ensures UserMentionId(query).Some? && FindById(members, UserMentionId(query).value).Some? ==>
      r == [FindById(members, UserMentionId(query).value).value]
    ensures UserMentionId(query).Some? && FindById(members, UserMentionId(query).value).None? ==>
      r == Selected(members, Query(query, query, None))
    ensures UserMentionId(query).None? ==> r == Selected(members, NameQuery(query))
  {
    var id := UserMentionId(query);
    if id.Some? {
      var m := FindById(members, id.value);
      if m.Some? {
        return [m.value];
      }
      MentionIsNoTag(query);
    }
    r := TieredSearch(members, NameQuery(query));
  }

  /** The `for(User user : bans)` loop that looks a mentioned id up among the bans. */
  method FindBanned(bans: seq<Entry>, id: string) returns (r: Option<Entry>)
    ensures r == FindById(bans, id)
  {
    r := None;
    var i := 0;
    while i < |bans|
      invariant 0 <= i <= |bans|
      invariant FindById(bans, id) == FindById(bans[i..], id)
    {
      assert bans[i..][0] == bans[i];
      if bans[i].id == id {
        return Some(bans[i]);
      }
      assert bans[i..][1..] == bans[i + 1..];
      i := i + 1;
    }
  }

  /**
   * `searchBannedUsers`: null (None) when the ban list cannot be fetched
   * (`bans` is None); a mention of a banned id gives that user; otherwise
   * the tiers over the bans. Users are equal by id, so `bans.contains(u)`
   * and the loop after it find the same user.
   */
  method SearchBannedUsers(query: string, bans: Option<seq<Entry>>) returns (r: Option<seq<Entry>>)
    ensures bans.None? <==> r.None?
    ensures bans.Some? && UserMentionId(query).Some? && FindById(bans.value, UserMentionId(query).value).Some? ==>
      r == Some([FindById(bans.value, UserMentionId(query).value).value])
    ensures bans.Some? && UserMentionId(query).Some? && FindById(bans.value, UserMentionId(query).value).None? ==>
      r == Some(Selected(bans.value, Query(query, query, None)))
    ensures bans.Some? && UserMentionId(query).None? ==> r == Some(Selected(bans.value, NameQuery(query)))
  {
    if bans.None? {
      return None;
    }
    var id := UserMentionId(query);
    if id.Some? {
      var u := FindBanned(bans.value, id.value);
      if u.Some? {
        return Some([u.value]);
      }
      MentionIsNoTag(query);
    }
    var found := TieredSearch(bans.value, NameQuery(query));
    r := Some(found);
  }

  /**
   * `searchTextChannel` and `searchVoiceChannel`: a channel mention of a
   * channel of this guild gives it; otherwise the tiers, whose exact tier
   * compares the name with the lower-cased query.
   */
  method SearchChannel(query: string, channels: seq<Entry>) returns (r: seq<Entry>)
    ensures ChannelMentionId(query).Some? && FindById(channels, ChannelMentionId(query).value).Some? ==>
      r == [FindById(channels, ChannelMentionId(query).value).value]
    ensures ChannelMentionId(query).None? || FindById(channels, ChannelMentionId(query).value).None? ==>
      r == Selected(channels, Query(Lower(query), Lower(query), None))
  {
    var id := ChannelMentionId(query);
    if id.Some? {
      var c := FindById(channels, id.value);
      if c.Some? {
        return [c.value];
      }
    }
    var lowerquery := Lower(query);
    r := TieredSearch(channels, Query(lowerquery, lowerquery, None));
  }

  /** The id a role or guild query names directly, mention first. */
  function RoleShortcut(query: string, roles: seq<Entry>): Option<Entry>
  {
    var byMention := if RoleMentionId(query).Some? then FindById(roles, RoleMentionId(query).value) else None;
    if byMention.Some? then byMention
    else if IdQueryId(query).Some? then FindById(roles, IdQueryId(query).value)
    else None
  }

  /**
   * `searchRole`: `<@&id>` or `id: N` naming a role of the guild gives
   * that role; otherwise the tiers.
   */
  method SearchRole(query: string, roles: seq<Entry>) returns (r: seq<Entry>)
    ensures RoleShortcut(query, roles).Some? ==> r == [RoleShortcut(query, roles).value]
    ensures RoleShortcut(query, roles).None? ==> r == Selected(roles, Query(query, query, None))
  {
    var mention := RoleMentionId(query);
    if mention.Some? {
      var role := FindById(roles, mention.value);
      if role.Some? {
        return [role.value];
      }
    }
    var id := IdQueryId(query);
    if id.Some? {
      var role := FindById(roles, id.value);
      if role.Some? {
        return [role.value];
      }
    }
    r := TieredSearch(roles, Query(query, query, None));
  }

  /** `searchGuild`: `id: N` naming a guild gives it; otherwise the tiers. */
  method SearchGuild(query: string, guilds: seq<Entry>) returns (r: seq<Entry>)
    ensures IdQueryId(query).Some? && FindById(guilds, IdQueryId(query).value).Some? ==>
      r == [FindById(guilds, IdQueryId(query).value).value]
    ensures IdQueryId(query).None? || FindById(guilds, IdQueryId(query).value).None? ==>
      r == Selected(guilds, Query(query, query, None))
  {
    var id := IdQueryId(query);
    if id.Some? {
      var g := FindById(guilds, id.value);
      if g.Some? {
        return [g.value];
      }
    }
    r := TieredSearch(guilds, Query(query, query, None));
  }

  /** A channel's exact tier is the lower-cased query, so `General` never finds `General` exactly. */
  lemma ChannelExactIsLowerCase()
    ensures TierOf(Entry("1", "General", None, ""), Query(Lower("General"), Lower("General"), None)) == 1
  {
    assert Lower("General") == "general";
  }
}
