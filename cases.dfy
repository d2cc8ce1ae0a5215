/**
 * The moderation case log of the Kotlin trees (`entities/Cases.kt` in the
 * `xyz.nightfury` and `me.kgustave.nightfury` packages): the `Case` record
 * with its truncating `reason` setter, `LogAction` and its two
 * `getActionByAct` parsers, `toDBArgs`, and the `ModLogger` rule that numbers
 * a new case after the guild's existing cases and records it only once the
 * log message has been sent.
 *
 * The guild's case table is an abstract sequence of rows per guild id; the
 * SQL behind it is not part of this model.
 */
module Cases {
  import opened Util

  const DEFAULT_CASE_REASON: string := "none"
  /** The longest reason stored unchanged. */
  const MAX_REASON: nat := 200
  /** How much of a longer reason is kept before the ellipsis. */
  const KEPT_REASON: nat := 197

  // ------------------------------------------------------------ LogAction

  datatype LogAction = Ban | Unban | Kick | Mute | Unmute | Clean | Other

  /** `LogAction.values()`, in declaration order. */
  const ACTIONS: seq<LogAction> := [Ban, Unban, Kick, Mute, Unmute, Clean, Other]

  /** The enum constant's `name`. */
  function EnumName(a: LogAction): string
  {
    match a
    case Ban => "BAN"
    case Unban => "UNBAN"
    case Kick => "KICK"
    case Mute => "MUTE"
    case Unmute => "UNMUTE"
    case Clean => "CLEAN"
    case Other => "OTHER"
  }

  /** The `act` column value of the `me.kgustave` tree's `LogAction`. */
  function Act(a: LogAction): string
  {
    match a
    case Ban => "ban"
    case Unban => "unban"
    case Kick => "kick"
    case Mute => "mute"
    case Unmute => "unmute"
    case Clean => "clean"
    case Other => ""
  }

  /** The lower-cased enum name of each action. */
  lemma LowerEnumName(a: LogAction)
    ensures Lower(EnumName(a)) == (if a == Other then "other" else Act(a))
  {
    var n := EnumName(a);
    var l := if a == Other then "other" else Act(a);
    assert |Lower(n)| == |l|;
    forall i | 0 <= i < |l|
      ensures Lower(n)[i] == l[i]
    {
      assert Lower(n)[i] == LowerChar(n[i]);
    }
  }

  /** Every `act` is already lower-case. */
  lemma ActIsLower(a: LogAction)
    ensures Lower(Act(a)) == Act(a)
  {
    var n := Act(a);
    assert forall i :: 0 <= i < |n| ==> 'a' <= n[i] <= 'z' by {
      match a
      case Ban =>
      case Unban =>
      case Kick =>
      case Mute =>
      case Unmute =>
      case Clean =>
      case Other =>
    }
    LowerOfNoUpper(n);
  }

  /** `values().find { it.name.toLowerCase() == act }` over `actions`. */
  function FindByName(actions: seq<LogAction>, act: string): (r: Option<LogAction>)
    ensures r.Some? ==> r.value in actions && Lower(EnumName(r.value)) == act
    ensures r.None? <==> forall a :: a in actions ==> Lower(EnumName(a)) != act
  {
    if actions == [] then None
    else if Lower(EnumName(actions[0])) == act then Some(actions[0])
    else FindByName(actions[1..], act)
  }

  /**
   * The `xyz.nightfury` tree's `getActionByAct`: the action whose lower-cased
   * name is exactly `act` (the input itself is not lower-cased), else OTHER.
   */
  function ActionByActMain(act: string): (r: LogAction)
    ensures r != Other ==> Lower(EnumName(r)) == act
    ensures (forall a :: Lower(EnumName(a)) != act) ==> r == Other
  {
    match FindByName(ACTIONS, act)
    case Some(a) => a
    case None => Other
  }

  /** Lower-cased names are pairwise distinct, so each one finds its own action. */
  lemma ActionByActMainOfName(a: LogAction)
    ensures ActionByActMain(Lower(EnumName(a))) == a
  {
    assert a in ACTIONS;
    match FindByName(ACTIONS, Lower(EnumName(a)))
    case None =>
    case Some(b) => LowerEnumNameInjective(b, a);
  }

  lemma LowerEnumNameInjective(a: LogAction, b: LogAction)
    requires Lower(EnumName(a)) == Lower(EnumName(b))
    ensures a == b
  {
    LowerEnumName(a);
    LowerEnumName(b);
  }

  /** The main parser recognises `act` exactly when it is some action's lower-cased name. */
  lemma ActionByActMainIff(act: string, a: LogAction)
    requires a != Other
    ensures ActionByActMain(act) == a <==> act == Lower(EnumName(a))
  {
    ActionByActMainOfName(a);
  }

  /** The main parser is case-sensitive: the enum's own name is not recognised. */
  lemma ActionByActMainIsCaseSensitive()
    ensures ActionByActMain(EnumName(Ban)) == Other
  {
    forall b
      ensures Lower(EnumName(b)) != "BAN"
    {
      LowerEnumName(b);
      assert Lower(EnumName(b))[0] != 'B';
    }
  }

  /** The `me.kgustave` tree's `getActionByAct`: a `when` over the lower-cased input. */
  function ActionByAct(act: string): LogAction
  {
    var l := Lower(act);
    if l == "ban" then Ban
    else if l == "unban" then Unban
    else if l == "kick" then Kick
    else if l == "mute" then Mute
    else if l == "unmute" then Unmute
    else if l == "clean" then Clean
    else Other
  }

  /** `getActionByAct(a.act) == a` for every action; OTHER's `""` falls to the default. */
  lemma ActionByActOfAct(a: LogAction)
    ensures ActionByAct(Act(a)) == a
  {
    ActIsLower(a);
  }

  /** The `me.kgustave` parser ignores case, and knows only the six acts. */
  lemma ActionByActIgnoresCase(act: string)
    ensures ActionByAct(act) == ActionByAct(Lower(act))
    ensures ActionByAct(act) != Other ==> Lower(act) == Act(ActionByAct(act))
  {
    LowerIdempotent(act);
  }

  /** Whatever the main parser recognises, the `me.kgustave` parser recognises too. */
  lemma MainKnownIsKnown(act: string)
    requires ActionByActMain(act) != Other
    ensures ActionByAct(act) == ActionByActMain(act)
  {
    var m := ActionByActMain(act);
    LowerEnumName(m);
    ActionByActOfAct(m);
  }

  /** On lower-case input the two parsers agree. */
  lemma ParsersAgreeOnLowerCase(act: string)
    requires Lower(act) == act
    ensures ActionByActMain(act) == ActionByAct(act)
  {
    if ActionByActMain(act) != Other {
      MainKnownIsKnown(act);
    } else if ActionByAct(act) != Other {
      var k := ActionByAct(act);
      ActionByActIgnoresCase(act);
      LowerEnumName(k);
      ActionByActMainOfName(k);
    }
  }

  // ------------------------------------------------------------ Case

  /** The `reason` setter: more than 200 characters become the first 197 plus "...". */
  function TruncateReason(value: string): (r: string)
    ensures |r| <= MAX_REASON
    ensures |value| <= MAX_REASON ==> r == value
    ensures |value| > MAX_REASON ==> |r| == MAX_REASON && r == value[..KEPT_REASON] + "..."
  {
    if |value| > MAX_REASON then value[..KEPT_REASON] + "..." else value
  }

  /** Setting a stored reason again changes nothing. */
  lemma TruncateReasonIdempotent(value: string)
    ensures TruncateReason(TruncateReason(value)) == TruncateReason(value)
  {
  }

  /** The truncated reason always begins with what is kept of the input. */
  lemma TruncateReasonKeepsPrefix(value: string)
    ensures var r := TruncateReason(value);
      |value| > MAX_REASON ==> r[..KEPT_REASON] == value[..KEPT_REASON]
  {
  }

  /** A case as it is stored: one row of the case table. */
  datatype CaseRecord = CaseRecord(
    number: int, guildId: nat, messageId: nat, modId: nat, targetId: nat,
    isOnUser: bool, action: LogAction, reason: string)

  /** One value of a database argument array. */
  datatype DBValue = DBInt(i: int) | DBBool(b: bool) | DBText(t: string)

  /**
   * Reads a row back from `toDBArgs`' layout, recovering the action with
   * `getActionByAct`.
   */
  function FromDBArgs(args: seq<DBValue>): (r: Option<CaseRecord>)
    ensures r.Some? ==> |args| == 8
  {
    if |args| == 8 && args[0].DBInt? && args[1].DBInt? && args[2].DBInt?
       && args[3].DBInt? && args[4].DBInt? && args[5].DBBool? && args[6].DBText?
       && args[7].DBText? && args[1].i >= 0 && args[2].i >= 0 && args[3].i >= 0
       && args[4].i >= 0
    then Some(CaseRecord(args[0].i, args[1].i as nat, args[2].i as nat, args[3].i as nat,
                         args[4].i as nat, args[5].b, ActionByAct(args[6].t), args[7].t))
    else None
  }

  class Case {
    var number: int
    var guildId: nat
    var messageId: nat
    var modId: nat
    var targetId: nat
    var isOnUser: bool
    var action: LogAction
    var reason: string

    constructor ()
      ensures number == 0 && guildId == 0 && messageId == 0 && modId == 0 && targetId == 0
      ensures isOnUser && action == Other && reason == DEFAULT_CASE_REASON
    {
      number := 0;
      guildId := 0;
      messageId := 0;
      modId := 0;
      targetId := 0;
      isOnUser := true;
      action := Other;
      reason := DEFAULT_CASE_REASON;
    }

    /** The `reason` property's setter. */
    method SetReason(value: string)
      modifies this`reason
      ensures reason == TruncateReason(value)
    {
      if |value| > MAX_REASON {
        reason := value[..KEPT_REASON] + "...";
      } else {
        reason := value;
      }
    }

    /** The case's current field values. */
    function Snapshot(): CaseRecord
      reads this
    {
      CaseRecord(number, guildId, messageId, modId, targetId, isOnUser, action, reason)
    }

    /**
     * `toDBArgs()`: number, guild, message, moderator, target, on-user flag,
     * act and reason, in that order; reading the row back loses nothing.
     */
    function ToDBArgs(): (r: seq<DBValue>)
      reads this
      ensures |r| == 8
      ensures r[0] == DBInt(number) && r[1] == DBInt(guildId) && r[2] == DBInt(messageId)
      ensures r[3] == DBInt(modId) && r[4] == DBInt(targetId) && r[5] == DBBool(isOnUser)
      ensures r[6] == DBText(Act(action)) && r[7] == DBText(reason)
      ensures FromDBArgs(r) == Some(Snapshot())
    {
      ActionByActOfAct(action);
      [DBInt(number), DBInt(guildId), DBInt(messageId), DBInt(modId), DBInt(targetId),
       DBBool(isOnUser), DBText(Act(action)), DBText(reason)]
    }
  }

  // ------------------------------------------------------------ ModLogger

  /** The guild's configured moderation log: none, or a channel that may or may not accept messages. */
  datatype LogChannel = NoLog | Log(canTalk: bool)

  /** Cases numbered 1, 2, ... in table order. */
  predicate Dense(cases: seq<CaseRecord>)
  {
    forall i :: 0 <= i < |cases| ==> cases[i].number == i + 1
  }

  /** The row a `new*` call stores for `action`, once the log message has id `messageId`. */
  function NewRecord(cases: seq<CaseRecord>, guildId: nat, modId: nat, targetId: nat,
                     action: LogAction, reason: Option<string>, messageId: nat): CaseRecord
  {
    CaseRecord(|cases| + 1, guildId, messageId, modId, targetId, action != Clean, action,
               if reason.Some? then TruncateReason(reason.value) else DEFAULT_CASE_REASON)
  }

  /**
   * The table after `newBan` / `newUnban` / `newKick` / `newMute` /
   * `newUnmute` / `newClean`: a row is added only when the log channel can
   * talk and the send produced a message (`sent`).
   */
  function Logged(cases: seq<CaseRecord>, guildId: nat, modId: nat, targetId: nat,
                  action: LogAction, reason: Option<string>, log: LogChannel,
                  sent: Option<nat>): seq<CaseRecord>
  {
    if log == Log(true) && sent.Some?
    then cases + [NewRecord(cases, guildId, modId, targetId, action, reason, sent.value)]
    else cases
  }

  class ModLogger {
    /** Guild id to that guild's case table. */
    var cases: map<nat, seq<CaseRecord>>

    constructor ()
      ensures cases == map[]
    {
      cases := map[];
    }

    /** The guild's cases, as `getCases(guild)`. */
    function CasesOf(guildId: nat): seq<CaseRecord>
      reads this
    {
      if guildId in cases then cases[guildId] else []
    }

    /** Every guild's table is densely numbered. */
    predicate Valid()
      reads this
    {
      forall g :: g in cases ==> Dense(cases[g])
    }

    /**
     * One of the `new*` entry points for `action`: the case is built field by
     * field, numbered `getCases(guild).size + 1`, and stored with the log
     * message's id only after that message was sent.
     */
    method NewCase(guildId: nat, modId: nat, targetId: nat, action: LogAction,
                   reason: Option<string>, log: LogChannel, sent: Option<nat>)
      requires action != Other
      modifies this`cases
      ensures CasesOf(guildId) ==
              Logged(old(CasesOf(guildId)), guildId, modId, targetId, action, reason, log, sent)
      ensures forall g :: g != guildId ==> CasesOf(g) == old(CasesOf(g))
      ensures old(Valid()) ==> Valid()
    {
      var existing := CasesOf(guildId);
      var c := StartCase(existing, guildId, modId, targetId, action, reason);
      if log.Log? && log.canTalk {
        if sent.Some? {
          c.messageId := sent.value;
          assert c.Snapshot() == NewRecord(existing, guildId, modId, targetId, action, reason, sent.value);
          ghost var before := cases;
          cases := cases[guildId := existing + [c.Snapshot()]];
          if forall g :: g in before ==> Dense(before[g]) {
            LoggedStaysDense(existing, guildId, modId, targetId, action, reason, log, sent);
          }
        }
      }
    }

    /** The case built field by field, before its log message has an id. */
    method StartCase(existing: seq<CaseRecord>, guildId: nat, modId: nat, targetId: nat,
                     action: LogAction, reason: Option<string>) returns (c: Case)
      ensures fresh(c)
      ensures c.Snapshot() == NewRecord(existing, guildId, modId, targetId, action, reason, 0)
    {
      c := new Case();
      c.number := |existing| + 1;
      c.guildId := guildId;
      c.modId := modId;
      c.targetId := targetId;
      c.isOnUser := action != Clean;
      c.action := action;
      if reason.Some? {
        c.SetReason(reason.value);
      }
    }
  }

  /** Logging extends a densely numbered table by the next number. */
  lemma LoggedStaysDense(cases: seq<CaseRecord>, guildId: nat, modId: nat, targetId: nat,
                         action: LogAction, reason: Option<string>, log: LogChannel,
                         sent: Option<nat>)
    requires Dense(cases)
    ensures var after := Logged(cases, guildId, modId, targetId, action, reason, log, sent);
      Dense(after) && |after| <= |cases| + 1 && after[..|cases|] == cases
  {
  }

  /** Nothing is recorded without a log channel that can talk. */
  lemma UnsentIsNotRecorded(cases: seq<CaseRecord>, guildId: nat, modId: nat, targetId: nat,
                            action: LogAction, reason: Option<string>, log: LogChannel,
                            sent: Option<nat>)
    ensures Logged(cases, guildId, modId, targetId, action, reason, log, sent) != cases
            <==> log == Log(true) && sent.Some?
  {
    if log == Log(true) && sent.Some? {
      var after := Logged(cases, guildId, modId, targetId, action, reason, log, sent);
      assert |after| == |cases| + 1;
    }
  }
}
