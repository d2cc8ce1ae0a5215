/**
 * Commands and the rules they apply, in the bot's three command trees:
 * finding a child by name (`isForCommand`, `findChild`, the dispatch at
 * the top of `run`), cooldown keys and messages, command levels, the
 * rewrite's full names, inherited default levels and ordering, and the
 * level command's argument split and decisions.
 */
module Commands {
  import opened Util
  import CommandIndex
  import Splitter

  // ------------------------------------------------------------ the tree

  /** The rewrite's `Command.Level`, in declaration order. */
  datatype Level = STANDARD | MODERATOR | ADMINISTRATOR | SERVER_OWNER | SHENGAERO

  function Ordinal(l: Level): nat
  {
    match l
    case STANDARD => 0
    case MODERATOR => 1
    case ADMINISTRATOR => 2
    case SERVER_OWNER => 3
    case SHENGAERO => 4
  }

  /**
   * What the lookups read of a command: its name, aliases and children;
   * for the rewrite also an overriding `defaultLevel` and
   * `hasAdjustableLevel`.
   */
  datatype Cmd = Cmd(name: string, aliases: seq<string>, children: seq<Cmd>,
                     levelOverride: Option<Level>, adjustable: bool)

  /** Some alias equals `s`, ignoring case. */
  predicate MatchesAlias(s: string, aliases: seq<string>)
  {
    aliases != [] && (MatchesAlias(s, aliases[..|aliases| - 1]) || EqIgnoreCase(s, aliases[|aliases| - 1]))
  }

  /** `isForCommand`: the name or an alias equals `s`, ignoring case. */
  predicate IsForCommand(c: Cmd, s: string)
  {
    EqIgnoreCase(s, c.name) || MatchesAlias(s, c.aliases)
  }

  function AsNamed(c: Cmd): CommandIndex.Named
  {
    CommandIndex.Named(c.name, c.aliases)
  }

  lemma {:induction false} MatchesAliasKeys(s: string, aliases: seq<string>)
    ensures MatchesAlias(s, aliases) <==> Lower(s) in CommandIndex.AliasKeys(aliases)
    decreases |aliases|
  {
    if aliases != [] {
      MatchesAliasKeys(s, aliases[..|aliases| - 1]);
    }
  }

  /** `isForCommand` accepts exactly the keys the command index files the command under. */
  lemma IsForCommandKeys(c: Cmd, s: string)
    ensures IsForCommand(c, s) <==> Lower(s) in CommandIndex.Keys(AsNamed(c))
  {
    MatchesAliasKeys(s, c.aliases);
  }

  /** The first child, in array order, that answers to `token`. */
  function FirstChild(children: seq<Cmd>, token: string): (r: Option<nat>)
    ensures r.Some? ==> r.value < |children| && IsForCommand(children[r.value], token)
                        && forall j :: 0 <= j < r.value ==> !IsForCommand(children[j], token)
    ensures r.None? <==> forall j :: 0 <= j < |children| ==> !IsForCommand(children[j], token)
    decreases |children|
  {
    if children == [] then None
    else if IsForCommand(children[0], token) then Some(0)
    else match FirstChild(children[1..], token)
      case None => None
      case Some(i) => Some(i + 1)
  }

  /** `args.split(\s+, 2)[0]`. */
  function ArgHead(args: string): string
  {
    SplitFirstSpace(args)[0]
  }

  /** `if(parts.size > 1) parts[1] else ""` (the main tree's `parts[1] ?: ""`). */
  function ArgRest(args: string): (r: string)
    ensures r == [] || |r| < |args|
  {
    var parts := SplitFirstSpace(args);
    if |parts| > 1 then parts[1] else ""
  }

  /** `findChild`: descend by the first token while there are children and arguments. */
  function FindChild(c: Cmd, args: string): Option<Cmd>
    decreases c
  {
    if c.children == [] || args == [] then Some(c)
    else match FirstChild(c.children, ArgHead(args))
      case None => None
      case Some(i) => FindChild(c.children[i], ArgRest(args))
  }

  /** The command `run` finally executes and the arguments it then holds. */
  datatype Dispatch = Dispatch(target: Cmd, args: string)

  /** The dispatch stopped although there were children and arguments: no child answered. */
  predicate Unmatched(d: Dispatch)
  {
    d.target.children != [] && d.args != [] && FirstChild(d.target.children, ArgHead(d.args)).None?
  }

  /**
   * The child dispatch at the top of `run`: it goes as deep as children
   * answer to the leading token, and each step leaves only the remainder.
   */
  function Route(c: Cmd, args: string): (r: Dispatch)
    ensures r.target.children == [] || r.args == [] || Unmatched(r)
    ensures r.args == args || |r.args| < |args|
    decreases c
  {
    if c.children == [] || args == [] then Dispatch(c, args)
    else match FirstChild(c.children, ArgHead(args))
      case None => Dispatch(c, args)
      case Some(i) => Route(c.children[i], ArgRest(args))
  }

  /**
   * `findChild` is the dispatch of `run`, except that where no child
   * answers it gives null instead of running the parent.
   */
  lemma {:induction false} FindChildIsRoute(c: Cmd, args: string)
    ensures FindChild(c, args) == if Unmatched(Route(c, args)) then None else Some(Route(c, args).target)
    decreases c
  {
    if c.children != [] && args != [] {
      match FirstChild(c.children, ArgHead(args))
      case None =>
      case Some(i) =>
        FindChildIsRoute(c.children[i], ArgRest(args));
    }
  }

  /** The arguments `run` reads and reassigns. */
  class Context {
    var args: string

    constructor (args: string)
      ensures this.args == args
    {
      this.args := args;
    }
  }

  /**
   * `run`'s child dispatch: for the first child answering to the
   * leading token, the arguments become the remainder and that child
   * runs instead.
   */
  method Run(c: Cmd, ctx: Context) returns (target: Cmd)
    modifies ctx
    ensures Dispatch(target, ctx.args) == Route(c, old(ctx.args))
    decreases c
  {
    if c.children != [] && ctx.args != [] {
      var parts := SplitFirstSpace(ctx.args);
      var i := 0;
      while i < |c.children|
        invariant 0 <= i <= |c.children|
        invariant forall j :: 0 <= j < i ==> !IsForCommand(c.children[j], parts[0])
        invariant ctx.args == old(ctx.args)
      {
        if IsForCommand(c.children[i], parts[0]) {
          ghost var first := FirstChild(c.children, parts[0]);
          assert first == Some(i);
          ctx.args := if |parts| > 1 then parts[1] else "";
          target := Run(c.children[i], ctx);
          return;
        }
        i := i + 1;
      }
    }
    target := c;
  }

  // ------------------------------------------------------------- paths

  /**
   * A path of child indices where every step takes the first child
   * answering to that child's own name, and every name is one word.
   */
  predicate NamedPath(c: Cmd, p: seq<nat>)
    decreases |p|
  {
    p == [] ||
    (p[0] < |c.children| && Word(c.children[p[0]].name)
     && FirstChild(c.children, c.children[p[0]].name) == Some(p[0])
     && NamedPath(c.children[p[0]], p[1..]))
  }

  function At(c: Cmd, p: seq<nat>): Cmd
    requires NamedPath(c, p)
    decreases |p|
  {
    if p == [] then c else At(c.children[p[0]], p[1..])
  }

  /** The names of the children the path passes through. */
  function PathNames(c: Cmd, p: seq<nat>): (r: seq<string>)
    requires NamedPath(c, p)
    ensures |r| == |p| && Words(r)
    decreases |p|
  {
    if p == [] then [] else [c.children[p[0]].name] + PathNames(c.children[p[0]], p[1..])
  }

  lemma JoinSpaceNonEmpty(ws: seq<string>)
    requires |ws| >= 1 && Words(ws)
    ensures JoinSpace(ws) != []
  {
    assert Word(ws[0]);
    if |ws| > 1 {
      assert |JoinSpace(ws)| >= |ws[0]|;
    }
  }

  /** Typing the children's names, separated by spaces, finds the node they lead to. */
  lemma {:induction false} FindChildFollowsNames(c: Cmd, p: seq<nat>)
    requires NamedPath(c, p)
    ensures FindChild(c, JoinSpace(PathNames(c, p))) == Some(At(c, p))
    decreases |p|
  {
    if p != [] {
      var names := PathNames(c, p);
      var child := c.children[p[0]];
      var tail := PathNames(child, p[1..]);
      assert names == [child.name] + tail;
      assert names[1..] == tail;
      SplitFirstSpaceOfJoin(names);
      JoinSpaceNonEmpty(names);
      assert ArgHead(JoinSpace(names)) == child.name;
      assert ArgRest(JoinSpace(names)) == JoinSpace(tail);
      FindChildFollowsNames(child, p[1..]);
    }
  }

  /** The rewrite's `fullname` of the node at `p` below the root `c`. */
  function FullName(c: Cmd, p: seq<nat>): string
    requires NamedPath(c, p)
  {
    JoinSpace([c.name] + PathNames(c, p))
  }

  lemma {:induction false} JoinSpaceSnoc(ws: seq<string>, w: string)
    requires |ws| >= 1
    ensures JoinSpace(ws + [w]) == JoinSpace(ws) + " " + w
    decreases |ws|
  {
    if |ws| > 1 {
      assert (ws + [w])[1..] == ws[1..] + [w];
      JoinSpaceSnoc(ws[1..], w);
    }
  }

  lemma {:induction false} NamedPathSnoc(c: Cmd, p: seq<nat>, i: nat)
    requires NamedPath(c, p + [i])
    ensures NamedPath(c, p) && i < |At(c, p).children|
    ensures At(c, p + [i]) == At(c, p).children[i]
    ensures PathNames(c, p + [i]) == PathNames(c, p) + [At(c, p).children[i].name]
    decreases |p|
  {
    if p != [] {
      assert (p + [i])[1..] == p[1..] + [i];
      NamedPathSnoc(c.children[p[0]], p[1..], i);
    } else {
      assert p + [i] == [i];
    }
  }

  /**
   * `fullname` as the source defines it: the name alone at the root,
   * otherwise the parent's full name, a space and the name.
   */
  lemma FullNameOfChild(c: Cmd, p: seq<nat>, i: nat)
    requires NamedPath(c, p + [i])
    ensures FullName(c, []) == c.name
    ensures NamedPath(c, p) && FullName(c, p + [i]) == FullName(c, p) + " " + At(c, p + [i]).name
  {
    NamedPathSnoc(c, p, i);
    assert [c.name] + PathNames(c, p + [i]) == ([c.name] + PathNames(c, p)) + [At(c, p + [i]).name];
    JoinSpaceSnoc([c.name] + PathNames(c, p), At(c, p + [i]).name);
  }

  /** `defaultLevel` of the node at `p`: its own override, else its parent's level. */
  function DefaultLevelAt(c: Cmd, p: seq<nat>, inherited: Level): Level
    requires NamedPath(c, p)
    decreases |p|
  {
    var own := match c.levelOverride case Some(l) => l case None => inherited;
    if p == [] then own else DefaultLevelAt(c.children[p[0]], p[1..], own)
  }

  /**
   * A command's default level is its override, else its parent's default
   * level; at the root, the group's.
   */
  lemma {:induction false} DefaultLevelOfChild(c: Cmd, p: seq<nat>, i: nat, group: Level)
    requires NamedPath(c, p + [i])
    ensures NamedPath(c, p)
    ensures DefaultLevelAt(c, p + [i], group) ==
      match At(c, p + [i]).levelOverride case Some(l) => l case None => DefaultLevelAt(c, p, group)
    decreases |p|
  {
    NamedPathSnoc(c, p, i);
    if p != [] {
      var own := match c.levelOverride case Some(l) => l case None => group;
      assert (p + [i])[1..] == p[1..] + [i];
      DefaultLevelOfChild(c.children[p[0]], p[1..], i, own);
    } else {
      assert p + [i] == [i];
    }
  }

  // ------------------------------------------------ search from the roots

  function Projection(roots: seq<Cmd>): (r: seq<CommandIndex.Named>)
    ensures |r| == |roots| && forall j :: 0 <= j < |roots| ==> r[j] == AsNamed(roots[j])
  {
    seq(|roots|, j requires 0 <= j < |roots| => AsNamed(roots[j]))
  }

  /** `commands[name]` on the rewrite's `CommandMap` of top-level commands. */
  function RootGet(roots: seq<Cmd>, name: string): Option<Cmd>
  {
    var index := CommandIndex.BuiltIndex(Projection(roots));
    if Lower(name) in index && index[Lower(name)] < |roots| then Some(roots[index[Lower(name)]]) else None
  }

  /** The rewrite client's `searchCommand`: the top-level command, then `findChild` on the rest. */
  function SearchCommand(roots: seq<Cmd>, query: string): Option<Cmd>
  {
    var parts := SplitFirstSpace(query);
    match RootGet(roots, parts[0])
    case None => None
    case Some(r) => FindChild(r, if |parts| > 1 then parts[1] else "")
  }

  /** A top-level command no later command shadows is found under its own name. */
  lemma RootGetOwnName(roots: seq<Cmd>, i: nat)
    requires i < |roots|
    requires forall j :: i < j < |roots| ==> !IsForCommand(roots[j], roots[i].name)
    ensures RootGet(roots, roots[i].name) == Some(roots[i])
  {
    var named := Projection(roots);
    var k := Lower(roots[i].name);
    var index := CommandIndex.BuiltIndex(named);
    assert k in CommandIndex.Keys(named[i]);
    CommandIndex.BuiltKeys(named);
    CommandIndex.AllKeysOwned(named, k);
    CommandIndex.BuiltOwner(named, k);
    var owner := index[k];
    if owner < i {
      CommandIndex.BuiltLast(named, k, i);
    } else if owner > i {
      IsForCommandKeys(roots[owner], roots[i].name);
    }
  }

  /**
   * Searching for a command's full name finds that command, provided
   * each name on the way is one word that no earlier sibling (and, at
   * the top, no later command) also answers to.
   */
  lemma SearchFindsFullName(roots: seq<Cmd>, i: nat, p: seq<nat>)
    requires i < |roots| && Word(roots[i].name)
    requires forall j :: i < j < |roots| ==> !IsForCommand(roots[j], roots[i].name)
    requires NamedPath(roots[i], p)
    ensures SearchCommand(roots, FullName(roots[i], p)) == Some(At(roots[i], p))
  {
    var r := roots[i];
    var names := [r.name] + PathNames(r, p);
    assert names[1..] == PathNames(r, p);
    assert Words(names);
    SplitFirstSpaceOfJoin(names);
    RootGetOwnName(roots, i);
    FindChildFollowsNames(r, p);
  }

  // ----------------------------------------------------- cooldown keys

  datatype CooldownScope = USER | CHANNEL | USER_CHANNEL | GUILD | USER_GUILD | GLOBAL

  /** A format with one `%d` (`"C:%d"`) or two (`"U:%d|G:%d"`), or the fixed `"Global"`. */
  datatype Format = Fixed(text: string) | One(lead: string) | Two(lead: string, middle: string)

  function FormatOf(s: CooldownScope): Format
  {
    match s
    case USER => One("U:")
    case CHANNEL => One("C:")
    case USER_CHANNEL => Two("U:", "|C:")
    case GUILD => One("G:")
    case USER_GUILD => Two("U:", "|G:")
    case GLOBAL => Fixed("Global")
  }

  function ErrSuffix(s: CooldownScope): string
  {
    match s
    case USER => ""
    case CHANNEL => "in this channel"
    case USER_CHANNEL => "in this channel"
    case GUILD => "in this server"
    case USER_GUILD => "in this server"
    case GLOBAL => "globally"
  }

  /**
   * `genKey(name, idOne, idTwo)`, with `-1` as "no second id".
   * `String.format` ignores an unused argument and throws
   * `MissingFormatArgumentException` for a missing one.
   */
  function GenKey(s: CooldownScope, name: string, idOne: int, idTwo: int): (r: Result<string>)
    ensures r.Err? <==> FormatOf(s).Two? && idTwo == -1
    ensures r.Ok? ==> StartsWith(r.value, name + "|")
  {
    var head := name + "|";
    match FormatOf(s)
    case Fixed(t) => Ok(head + t)
    case One(lead) => Ok(head + lead + IntToString(idOne))
    case Two(lead, middle) =>
      if idTwo == -1 then Err("MissingFormatArgumentException")
      else Ok(head + lead + IntToString(idOne) + middle + IntToString(idTwo))
  }

  /** Where a command is invoked: in a guild or not, and the ids involved (snowflakes). */
  datatype Where = Where(inGuild: bool, author: nat, guild: nat, channel: nat)

  /** The scope whose format `cooldownKey` uses: outside a guild USER_GUILD becomes USER_CHANNEL and GUILD becomes CHANNEL. */
  function KeyScope(s: CooldownScope, inGuild: bool): CooldownScope
  {
    if inGuild then s
    else match s
      case USER_GUILD => USER_CHANNEL
      case GUILD => CHANNEL
      case _ => s
  }

  /** The ids a key is made of under that scope. */
  function ScopeIds(s: CooldownScope, w: Where): seq<nat>
  {
    match KeyScope(s, w.inGuild)
    case USER => [w.author]
    case CHANNEL => [w.channel]
    case USER_CHANNEL => [w.author, w.channel]
    case GUILD => [w.guild]
    case USER_GUILD => [w.author, w.guild]
    case GLOBAL => []
  }

  /** `cooldownKey` (and the main tree's `getCooldownKey`); every branch supplies the ids its format needs. */
  function CooldownKey(s: CooldownScope, name: string, w: Where): (r: string)
    ensures StartsWith(r, name + "|")
  {
    var k := match s
      case USER => GenKey(USER, name, w.author, -1)
      case USER_GUILD =>
        if w.inGuild then GenKey(USER_GUILD, name, w.author, w.guild)
        else GenKey(USER_CHANNEL, name, w.author, w.channel)
      case USER_CHANNEL => GenKey(USER_CHANNEL, name, w.author, w.channel)
      case GUILD =>
        if w.inGuild then GenKey(GUILD, name, w.guild, -1) else GenKey(CHANNEL, name, w.channel, -1)
      case CHANNEL => GenKey(CHANNEL, name, w.channel, -1)
      case GLOBAL => GenKey(GLOBAL, name, 0, -1);
    k.value
  }

  predicate NoBar(s: string)
  {
    forall k :: 0 <= k < |s| ==> s[k] != '|'
  }

  lemma NatToStringNoBar(n: nat)
    ensures NoBar(NatToString(n)) && NoBar(IntToString(n))
  {
    var s := NatToString(n);
    forall k | 0 <= k < |s|
      ensures s[k] != '|'
    {
      assert IsDigit(s[k]);
    }
  }

  lemma NatToStringInjective(a: nat, b: nat)
    ensures NatToString(a) == NatToString(b) <==> a == b
  {
  }

  /** Two texts without `|`, each followed by nothing or by a `|`, split apart the same way. */
  lemma SplitAtBar(x: string, xs: string, y: string, ys: string)
    requires NoBar(x) && NoBar(y)
    requires xs == [] || xs[0] == '|'
    requires ys == [] || ys[0] == '|'
    requires x + xs == y + ys
    ensures x == y && xs == ys
  {
    var s := x + xs;
    assert x == s[..|x|];
    assert y == s[..|y|];
  }

  lemma DropSame(a: string, b: string, c: string)
    requires a + b == a + c
    ensures b == c
  {
    assert b == (a + b)[|a|..];
    assert c == (a + c)[|a|..];
  }

  /** What follows `name|` in a key made under scope `ks` (the scope after the fallback). */
  function KeyTail(ks: CooldownScope, w: Where): string
  {
    match ks
    case USER => "U:" + NatToString(w.author)
    case CHANNEL => "C:" + NatToString(w.channel)
    case USER_CHANNEL => "U:" + NatToString(w.author) + "|C:" + NatToString(w.channel)
    case GUILD => "G:" + NatToString(w.guild)
    case USER_GUILD => "U:" + NatToString(w.author) + "|G:" + NatToString(w.guild)
    case GLOBAL => "Global"
  }

  lemma CooldownKeyShape(s: CooldownScope, name: string, w: Where)
    ensures CooldownKey(s, name, w) == name + "|" + KeyTail(KeyScope(s, w.inGuild), w)
  {
  }

  lemma OneIdInjective(lead: string, a: nat, b: nat)
    ensures lead + NatToString(a) == lead + NatToString(b) ==> a == b
  {
    if lead + NatToString(a) == lead + NatToString(b) {
      DropSame(lead, NatToString(a), NatToString(b));
      NatToStringInjective(a, b);
    }
  }

  lemma TwoPartsSplit(lead: string, x: string, middle: string, u: string, y: string, v: string)
    requires NoBar(x) && NoBar(y) && middle != [] && middle[0] == '|'
    requires lead + x + middle + u == lead + y + middle + v
    ensures x == y && u == v
  {
    assert lead + x + middle + u == lead + (x + (middle + u));
    assert lead + y + middle + v == lead + (y + (middle + v));
    DropSame(lead, x + (middle + u), y + (middle + v));
    SplitAtBar(x, middle + u, y, middle + v);
    DropSame(middle, u, v);
  }

  lemma TwoIdInjective(lead: string, middle: string, a1: nat, b1: nat, a2: nat, b2: nat)
    requires middle != [] && middle[0] == '|'
    ensures lead + NatToString(a1) + middle + NatToString(b1) == lead + NatToString(a2) + middle + NatToString(b2)
            ==> a1 == a2 && b1 == b2
  {
    if lead + NatToString(a1) + middle + NatToString(b1) == lead + NatToString(a2) + middle + NatToString(b2) {
      NatToStringNoBar(a1);
      NatToStringNoBar(a2);
      TwoPartsSplit(lead, NatToString(a1), middle, NatToString(b1), NatToString(a2), NatToString(b2));
      NatToStringInjective(a1, a2);
      NatToStringInjective(b1, b2);
    }
  }

  /**
   * Within one kind of channel, two invocations share a cooldown key
   * exactly when they share the ids their scope is about: the user, the
   * channel, the guild, or nothing for a global cooldown.
   */
  lemma CooldownKeyInjective(s: CooldownScope, name: string, w1: Where, w2: Where)
    requires w1.inGuild == w2.inGuild
    ensures CooldownKey(s, name, w1) == CooldownKey(s, name, w2) <==> ScopeIds(s, w1) == ScopeIds(s, w2)
  {
    var ks := KeyScope(s, w1.inGuild);
    CooldownKeyShape(s, name, w1);
    CooldownKeyShape(s, name, w2);
    if CooldownKey(s, name, w1) == CooldownKey(s, name, w2) {
      DropSame(name + "|", KeyTail(ks, w1), KeyTail(ks, w2));
    }
    match ks
    case USER => OneIdInjective("U:", w1.author, w2.author);
    case CHANNEL => OneIdInjective("C:", w1.channel, w2.channel);
    case GUILD => OneIdInjective("G:", w1.guild, w2.guild);
    case USER_CHANNEL => TwoIdInjective("U:", "|C:", w1.author, w1.channel, w2.author, w2.channel);
    case USER_GUILD => TwoIdInjective("U:", "|G:", w1.author, w1.guild, w2.author, w2.guild);
    case GLOBAL =>
  }

  /** The rewrite's `correctScope`: the scope a cooldown message names. */
  function CorrectScope(s: CooldownScope, inGuild: bool): CooldownScope
  {
    if !inGuild && (s == USER_GUILD || s == GUILD) then CHANNEL else s
  }

  /** `cooldownError` / `getCooldownError` in the main trees. */
  function CooldownError(s: CooldownScope, inGuild: bool): (r: string)
    ensures r == ErrSuffix(CorrectScope(s, inGuild))
  {
    if !inGuild && (s == USER_GUILD || s == GUILD) then ErrSuffix(CHANNEL) else ErrSuffix(s)
  }

  /** The message names the same extent as the key: the scope the key falls back to has the same suffix. */
  lemma CooldownErrorMatchesKey(s: CooldownScope, inGuild: bool)
    ensures CooldownError(s, inGuild) == ErrSuffix(KeyScope(s, inGuild))
  {
  }

  /**
   * The main trees' cooldown notice after the warning emoji, as written:
   * `"…seconds" + (if error is empty "!" else " " + error) + "!"`.
   */
  function CooldownNoticeMain(remaining: nat, error: string): string
  {
    "That command is on cooldown for " + NatToString(remaining) + " more seconds"
      + (if error == [] then "!" else " " + error) + "!"
  }

  /** The rewrite's notice, which adds the suffix only when there is one and ends in one `!`. */
  function CooldownNotice(remaining: nat, error: string): (r: string)
    ensures EndsWith(r, "!")
    ensures error == [] ==> EndsWith(r, " more seconds!")
    ensures error != [] ==> EndsWith(r, " " + error + "!")
  {
    "That command is on cooldown for " + NatToString(remaining) + " more seconds"
      + (if error == [] then "" else " " + error) + "!"
  }

  /** For a per-user cooldown, whose suffix is empty, the main trees' notice ends in `!!`. */
  lemma UserCooldownNoticeDoubled(remaining: nat)
    ensures 2 <= |CooldownNoticeMain(remaining, ErrSuffix(USER))|
    ensures EndsWith(CooldownNoticeMain(remaining, ErrSuffix(USER)), "!!")
    ensures !EndsWith(CooldownNotice(remaining, ErrSuffix(USER)), "!!")
  {
    var r := CooldownNotice(remaining, "");
    assert r[|r| - 2] == 's';
    assert r[|r| - 2..] != "!!";
  }

  /** With a non-empty suffix the two notices agree. */
  lemma CooldownNoticesAgree(remaining: nat, error: string)
    requires error != []
    ensures CooldownNoticeMain(remaining, error) == CooldownNotice(remaining, error)
  {
  }

  // ---------------------------------------------------------- levels

  /** The newer main tree's `CommandLevel`, with its ranks. */
  datatype CommandLevel = LevelShengaero | LevelServerOwner | LevelAdmin | LevelModerator | LevelStandard

  function Rank(l: CommandLevel): nat
  {
    match l
    case LevelShengaero => 1
    case LevelServerOwner => 2
    case LevelAdmin => 3
    case LevelModerator => 4
    case LevelStandard => 5
  }

  /** The newer main tree's `Category`; the first four form the primary hierarchy. */
  datatype Category = CatShengaero | CatServerOwner | CatAdmin | CatModerator | CatMusic | CatNsfw

  /** `CommandLevel.fromCategory`. */
  function FromCategory(c: Option<Category>): (r: CommandLevel)
    ensures r == LevelStandard <==> c.None? || c == Some(CatMusic) || c == Some(CatNsfw)
    ensures c == Some(CatShengaero) <==> r == LevelShengaero
    ensures c == Some(CatServerOwner) <==> r == LevelServerOwner
    ensures c == Some(CatAdmin) <==> r == LevelAdmin
    ensures c == Some(CatModerator) <==> r == LevelModerator
  {
    match c
    case None => LevelStandard
    case Some(CatShengaero) => LevelShengaero
    case Some(CatServerOwner) => LevelServerOwner
    case Some(CatAdmin) => LevelAdmin
    case Some(CatModerator) => LevelModerator
    case Some(_) => LevelStandard
  }

  /** The words `fromArguments` accepts for each level, lower-cased. */
  function CommandLevelWords(l: CommandLevel): set<string>
  {
    match l
    case LevelServerOwner => {"owner"}
    case LevelAdmin => {"admin"}
    case LevelModerator => {"mod", "mods", "moderator"}
    case LevelStandard => {"all", "standard", "public"}
    case LevelShengaero => {}
  }

  /** `CommandLevel.fromArguments`: the lower-cased argument against each level's words. */
  function FromArguments(args: string): (r: Option<CommandLevel>)
    ensures r.Some? ==> Lower(args) in CommandLevelWords(r.value)
    ensures r.None? <==> forall l :: Lower(args) !in CommandLevelWords(l)
  {
    var a := Lower(args);
    if a == "owner" then Some(LevelServerOwner)
    else if a == "admin" then Some(LevelAdmin)
    else if a == "mod" || a == "mods" || a == "moderator" then Some(LevelModerator)
    else if a == "all" || a == "standard" || a == "public" then Some(LevelStandard)
    else None
  }

  /** Every word of a level, in any case, parses back to that level. */
  lemma FromArgumentsOfWord(l: CommandLevel, w: string)
    requires Lower(w) in CommandLevelWords(l)
    ensures FromArguments(w) == Some(l)
  {
  }

  /** The level command's `levelFromArgs`, case-insensitive. */
  function LevelWords(l: Level): set<string>
  {
    match l
    case STANDARD => {"standard", "public"}
    case MODERATOR => {"mod", "moderator"}
    case ADMINISTRATOR => {"admin", "administrator"}
    case SERVER_OWNER => {"owner"}
    case SHENGAERO => {}
  }

  function LevelFromArgs(args: string): (r: Option<Level>)
    ensures r.Some? ==> Lower(args) in LevelWords(r.value) && r.value != SHENGAERO
    ensures r.None? <==> forall l :: Lower(args) !in LevelWords(l)
  {
    var a := Lower(args);
    if a == "standard" || a == "public" then Some(STANDARD)
    else if a == "mod" || a == "moderator" then Some(MODERATOR)
    else if a == "admin" || a == "administrator" then Some(ADMINISTRATOR)
    else if a == "owner" then Some(SERVER_OWNER)
    else None
  }

  lemma LevelFromArgsOfWord(l: Level, w: string)
    requires Lower(w) in LevelWords(l)
    ensures LevelFromArgs(w) == Some(l)
  {
  }

  /** The newer main tree's `fullname` getter: the name while the field holds the `"null"` sentinel. */
  function FullnameMain(field: string, name: string): (r: string)
    ensures r == field || r == name
    ensures r == "null" ==> name == "null"
  {
    if field == "null" then name else field
  }

  // ------------------------------------------------------ ordering

  /** What `compareTo` reads of a group. */
  datatype Group = Group(name: string, defaultLevel: Level)

  /** `Group.compareTo`, as written: 1 whenever the receiver is the standard group. */
  function GroupCompare(g: Group, other: Group, standardName: string): int
  {
    if g.name == standardName then 1 else Ordinal(g.defaultLevel) - Ordinal(other.defaultLevel)
  }

  /** The standard group compares greater than itself, and with a higher-level group both ways round. */
  lemma GroupCompareBroken(standardName: string)
    ensures var std := Group(standardName, STANDARD);
      GroupCompare(std, std, standardName) == 1
    ensures var std := Group(standardName, STANDARD);
      var other := Group(standardName + "x", MODERATOR);
      GroupCompare(std, other, standardName) > 0 && GroupCompare(other, std, standardName) > 0
  {
  }

  /** The evidently intended order: the standard group last, the others by default level. */
  function GroupCompareCorrected(g: Group, other: Group, standardName: string): int
  {
    var a := g.name == standardName;
    var b := other.name == standardName;
    if a && b then 0
    else if a then 1
    else if b then -1
    else Ordinal(g.defaultLevel) - Ordinal(other.defaultLevel)
  }

  function Sign(n: int): int
  {
    if n < 0 then -1 else if n > 0 then 1 else 0
  }

  /** The corrected group order is reflexive, antisymmetric and transitive, as `Comparable` requires. */
  lemma GroupCompareCorrectedIsOrder(g: Group, h: Group, k: Group, standardName: string)
    ensures GroupCompareCorrected(g, g, standardName) == 0
    ensures Sign(GroupCompareCorrected(g, h, standardName)) == -Sign(GroupCompareCorrected(h, g, standardName))
    ensures GroupCompareCorrected(g, h, standardName) > 0 && GroupCompareCorrected(h, k, standardName) > 0
            ==> GroupCompareCorrected(g, k, standardName) > 0
  {
  }

  /** `String.compareTo(other, ignoreCase = true)`, over ASCII case folding. */
  function CompareIgnoreCase(a: string, b: string): int
    decreases |a|
  {
    if a == [] || b == [] then |a| - |b|
    else if LowerChar(a[0]) != LowerChar(b[0]) then LowerChar(a[0]) as int - LowerChar(b[0]) as int
    else CompareIgnoreCase(a[1..], b[1..])
  }

  /** Swapping the operands negates the comparison; equal-ignoring-case texts compare as 0. */
  lemma {:induction false} CompareIgnoreCaseSymmetric(a: string, b: string)
    ensures CompareIgnoreCase(a, b) == -CompareIgnoreCase(b, a)
    ensures EqIgnoreCase(a, b) ==> CompareIgnoreCase(a, b) == 0
    decreases |a|
  {
    if a != [] && b != [] {
      CompareIgnoreCaseSymmetric(a[1..], b[1..]);
      if EqIgnoreCase(a, b) {
        assert Lower(a)[0] == Lower(b)[0];
        assert Lower(a)[1..] == Lower(b)[1..];
      }
    } else if EqIgnoreCase(a, b) {
      assert |Lower(a)| == |a| && |Lower(b)| == |b|;
    }
  }

  /** `Command.compareTo`: by group, then by full name ignoring case. */
  function CommandCompare(g: Group, fullname: string, og: Group, otherFullname: string, standardName: string): int
  {
    var byGroup := GroupCompare(g, og, standardName);
    if byGroup != 0 then byGroup else CompareIgnoreCase(fullname, otherFullname)
  }

  /** With the corrected group order, `Command.compareTo` is antisymmetric. */
  function CommandCompareCorrected(g: Group, fullname: string, og: Group, otherFullname: string, standardName: string): int
  {
    var byGroup := GroupCompareCorrected(g, og, standardName);
    if byGroup != 0 then byGroup else CompareIgnoreCase(fullname, otherFullname)
  }

  lemma CommandCompareCorrectedSymmetric(g: Group, f: string, og: Group, of: string, standardName: string)
    ensures Sign(CommandCompareCorrected(g, f, og, of, standardName)) == -Sign(CommandCompareCorrected(og, of, g, f, standardName))
    ensures CommandCompareCorrected(g, f, g, f, standardName) == 0
  {
    GroupCompareCorrectedIsOrder(g, og, og, standardName);
    CompareIgnoreCaseSymmetric(f, of);
    CompareIgnoreCaseSymmetric(f, f);
  }

  /** As written, a command of the standard group compares greater than itself. */
  lemma StandardCommandNotReflexive(f: string, standardName: string)
    ensures CommandCompare(Group(standardName, STANDARD), f, Group(standardName, STANDARD), f, standardName) == 1
  {
  }

  // ------------------------------------------------- missing arguments

  /** `noArgumentError`: the error emoji, then `%name` and `%arguments` substituted in that order. */
  function NoArgumentError(errorEmoji: string, template: string, fullname: string, arguments: string): string
  {
    errorEmoji + " " + Splitter.ReplaceAll(Splitter.ReplaceAll(template, "%name", fullname), "%arguments", arguments)
  }

  predicate NoPercent(s: string)
  {
    forall k :: 0 <= k < |s| ==> s[k] != '%'
  }

  /** Text without `%` passes through a substitution unchanged, and the rest is substituted. */
  lemma {:induction false} ReplaceAllPlainPrefix(a: string, b: string, p: string, q: string)
    requires |p| > 0 && p[0] == '%' && NoPercent(a)
    ensures Splitter.ReplaceAll(a + b, p, q) == a + Splitter.ReplaceAll(b, p, q)
    decreases |a|
  {
    if a != [] {
      var s := a + b;
      assert s[0] == a[0] && a[0] != '%';
      assert s[1..] == a[1..] + b;
      assert NoPercent(a[1..]);
      ReplaceAllPlainPrefix(a[1..], b, p, q);
      if |s| < |p| {
        assert Splitter.ReplaceAll(s, p, q) == s;
        assert Splitter.ReplaceAll(b, p, q) == b;
        assert a + Splitter.ReplaceAll(b, p, q) == s;
      } else {
        assert s[..|p|][0] != p[0];
        assert Splitter.ReplaceAll(s, p, q) == [s[0]] + Splitter.ReplaceAll(s[1..], p, q);
        assert [s[0]] + (a[1..] + Splitter.ReplaceAll(b, p, q)) == ([a[0]] + a[1..]) + Splitter.ReplaceAll(b, p, q);
        assert [a[0]] + a[1..] == a;
        assert Splitter.ReplaceAll(s, p, q) == [s[0]] + (a[1..] + Splitter.ReplaceAll(b, p, q));
      }
    } else {
      assert a + b == b;
    }
  }

  lemma ReplaceAllPlain(a: string, p: string, q: string)
    requires |p| > 0 && p[0] == '%' && NoPercent(a)
    ensures Splitter.ReplaceAll(a, p, q) == a
  {
    ReplaceAllPlainPrefix(a, [], p, q);
    assert a + [] == a;
  }

  /**
   * A template `pre + "%name" + post` without other `%` becomes the
   * full name between the untouched text.
   */
  lemma NoArgumentErrorOfName(errorEmoji: string, pre: string, post: string, fullname: string, arguments: string)
    requires NoPercent(pre) && NoPercent(post) && NoPercent(fullname)
    ensures NoArgumentError(errorEmoji, pre + "%name" + post, fullname, arguments) == errorEmoji + " " + pre + fullname + post
  {
    var p := "%name";
    assert pre + p + post == pre + (p + post);
    ReplaceAllPlainPrefix(pre, p + post, p, fullname);
    assert (p + post)[..|p|] == p;
    assert (p + post)[|p|..] == post;
    ReplaceAllPlain(post, p, fullname);
    assert Splitter.ReplaceAll(p + post, p, fullname) == fullname + post;
    var t := pre + fullname + post;
    assert Splitter.ReplaceAll(pre + p + post, p, fullname) == t;
    assert NoPercent(t) by {
      forall k | 0 <= k < |t| ensures t[k] != '%' {
        if k < |pre| { assert t[k] == pre[k]; }
        else if k < |pre| + |fullname| { assert t[k] == fullname[k - |pre|]; }
        else { assert t[k] == post[k - |pre| - |fullname|]; }
      }
    }
    ReplaceAllPlain(t, "%arguments", arguments);
  }

  // -------------------------------------------------- the level command

  /** `Set`'s split: the last `\s` token is the level, the tokens before it, joined with spaces, the command. */
  datatype LevelArgs = LevelArgs(command: string, level: string)

  function SplitLevelArgs(args: string): (r: LevelArgs)
    ensures forall k :: 0 <= k < |r.level| ==> !RegexSpace(r.level[k])
  {
    var t := SplitAllSpaces(args);
    assert t[|t| - 1] in t;
    LevelArgs(JoinSpace(t[..|t| - 1]), t[|t| - 1])
  }

  /** Words typed with single spaces split back into the command words and the level word. */
  lemma SplitLevelArgsOfJoin(ws: seq<string>, level: string)
    requires Words(ws + [level])
    ensures SplitLevelArgs(JoinSpace(ws + [level])) == LevelArgs(JoinSpace(ws), level)
  {
    SplitAllSpacesOfJoin(ws + [level]);
    assert (ws + [level])[..|ws|] == ws;
  }

  /** What the level command learns about the command it found. */
  datatype Target = Target(adjustable: bool, defaultLevel: Level)

  /** The level command's reply; `Saved` holds what is stored, `None` meaning "reset". */
  datatype LevelReply = NoSuchCommand | NotAdjustable | NoSuchLevel | AlreadySet | BelowDefault | Saved(stored: Option<Level>)

  /** The level a command has in a guild: the stored one, else its default. */
  function Effective(stored: Option<Level>, default: Level): Level
  {
    match stored case Some(l) => l case None => default
  }

  /** `LevelSetCommand`: `current` is the stored level, `levelArg` the typed level. */
  function LevelSet(found: Option<Target>, levelArg: string, current: Option<Level>): (r: LevelReply)
    ensures r == NoSuchCommand <==> found.None?
    ensures r == NotAdjustable <==> found.Some? && !found.value.adjustable
    ensures r == NoSuchLevel <==> found.Some? && found.value.adjustable && LevelFromArgs(levelArg).None?
    ensures r.Saved? <==>
      found.Some? && found.value.adjustable && LevelFromArgs(levelArg).Some?
      && (LevelFromArgs(levelArg).value == found.value.defaultLevel
          || (current != LevelFromArgs(levelArg) && Ordinal(found.value.defaultLevel) <= Ordinal(LevelFromArgs(levelArg).value)))
    ensures r.Saved? ==> (r.stored.None? <==> LevelFromArgs(levelArg) == Some(found.value.defaultLevel))
    ensures r.Saved? ==> Effective(r.stored, found.value.defaultLevel) == LevelFromArgs(levelArg).value
  {
    match found
    case None => NoSuchCommand
    case Some(t) =>
      if !t.adjustable then NotAdjustable
      else match LevelFromArgs(levelArg)
        case None => NoSuchLevel
        case Some(level) =>
          var resetting := t.defaultLevel == level;
          if !resetting && Some(level) == current then AlreadySet
          else if !resetting && Ordinal(t.defaultLevel) > Ordinal(level) then BelowDefault
          else Saved(if resetting then None else Some(level))
  }

  /** `LevelResetCommand`: refused when the effective level already is the default. */
  function LevelReset(found: Option<Target>, current: Option<Level>): (r: LevelReply)
    ensures r == NoSuchCommand <==> found.None?
    ensures r == AlreadySet <==> found.Some? && Effective(current, found.value.defaultLevel) == found.value.defaultLevel
    ensures r.Saved? <==> found.Some? && current.Some? && current.value != found.value.defaultLevel
    ensures r.Saved? ==> r.stored == None
  {
    match found
    case None => NoSuchCommand
    case Some(t) =>
      if Effective(current, t.defaultLevel) == t.defaultLevel then AlreadySet else Saved(None)
  }

  /**
   * After a level other than the default has been set, a reset is
   * accepted and brings the command back to its default level.
   */
  lemma ResetUndoesSet(t: Target, levelArg: string, current: Option<Level>)
    requires LevelSet(Some(t), levelArg, current).Saved?
    requires LevelFromArgs(levelArg) != Some(t.defaultLevel)
    ensures var stored := LevelSet(Some(t), levelArg, current).stored;
      LevelReset(Some(t), stored) == Saved(None)
      && Effective(None, t.defaultLevel) == t.defaultLevel
  {
  }
}
