/**
 * The main tree's `tag` command family (`TagCommand.kt`) over the two tag
 * tables: global tags, and local tags per guild. Both tables are maps keyed
 * by the lower-cased tag name, as their queries compare `LOWER(NAME)`; a row
 * keeps the name as typed, its owner id and its content. Owner id 0 is what
 * the owner query answers for a missing tag, and 1 marks a local tag that
 * belongs to the server.
 *
 * Whether a name is a command is the command index's answer
 * (`client.commands[name] != null`) and is passed in; so is where the tag
 * owner stands in the guild, for `Override`.
 */
module Tags {
  import opened Util

  const MAX_NAME: nat := 50
  const MAX_CONTENT: nat := 1900
  /** The owner id of a server-owned local tag. */
  const SERVER_OWNER: nat := 1
  /** The owner id the owner query answers when there is no such tag. */
  const NO_OWNER: nat := 0

  datatype Tag = Tag(name: string, ownerId: nat, content: string)

  // ------------------------------------------------------------ validation

  /** `split(Regex("\\s+"), 2)`: the name, and the content when there is any. */
  function TagArgs(args: string): (string, Option<string>)
  {
    var parts := SplitFirstSpace(args);
    (parts[0], if |parts| > 1 then Some(parts[1]) else None)
  }

  datatype Invalid = NameTooLong | IsCommand | NoContent | ContentTooLong

  /** The validator of Create, CreateGlobal and Edit: the first failing check, in order. */
  function Validate(name: string, nameIsCommand: bool, content: Option<string>): Option<Invalid>
  {
    if |name| > MAX_NAME then Some(NameTooLong)
    else if nameIsCommand then Some(IsCommand)
    else if content.None? then Some(NoContent)
    else if |content.value| > MAX_CONTENT then Some(ContentTooLong)
    else None
  }

  /** The validator accepts exactly the names and contents within their limits. */
  lemma ValidateAccepts(name: string, nameIsCommand: bool, content: Option<string>)
    ensures Validate(name, nameIsCommand, content).None? <==>
              |name| <= MAX_NAME && !nameIsCommand && content.Some? && |content.value| <= MAX_CONTENT
    ensures Validate(name, nameIsCommand, content) == Some(ContentTooLong) ==>
              |name| <= MAX_NAME && !nameIsCommand && content.Some?
  {
  }

  /** Override's validator: the length of the name, then the content; command names are allowed. */
  function ValidateOverride(name: string, content: Option<string>): Option<Invalid>
  {
    if |name| > MAX_NAME then Some(NameTooLong)
    else if content.None? then Some(NoContent)
    else if |content.value| > MAX_CONTENT then Some(ContentTooLong)
    else None
  }

  /** Override's checks are the common ones with the command check left out. */
  lemma OverrideValidationSkipsCommands(name: string, content: Option<string>)
    ensures ValidateOverride(name, content) == Validate(name, false, content)
    ensures ValidateOverride(name, content).None? ==> Validate(name, true, content) == Some(IsCommand)
  {
  }

  /** What a call finds: a command name, nothing, or the content with the tag's arguments. */
  datatype CallOutcome = NotATag | NotFound | Found(content: string, args: string)

  // ------------------------------------------------------------ answers

  datatype Refusal = Rejected(why: Invalid) | AlreadyExists | NotExist | NotOwner(local: bool) | CannotInteract

  datatype Reply = Done | Refused(refusal: Refusal)

  /** What `Owner` answers. */
  datatype OwnerAnswer = NoSuchTag | BelongsToServer | OwnedBy(ownerId: nat, local: bool)

  /** Where a tag owner stands in the guild, as seen by `Override`'s caller. */
  datatype Standing = NotMember | Member(isOwner: bool, callerCanInteract: bool)

  /** The role-hierarchy refusal of `Override` as written: refused when the caller CAN interact. */
  predicate BlockedAsWritten(s: Standing)
  {
    s.Member? && (s.isOwner || s.callerCanInteract)
  }

  /** The refusal as evidently intended: the owner is the guild owner or out of the caller's reach. */
  predicate Blocked(s: Standing)
  {
    s.Member? && (s.isOwner || !s.callerCanInteract)
  }

  // ------------------------------------------------------------ the store

  /** The global and local tag tables. */
  class TagStore {
    /** Lower-cased name to the global tag. */
    var globals: map<string, Tag>
    /** Guild id and lower-cased name to the local tag. */
    var locals: map<(nat, string), Tag>

    constructor ()
      ensures globals == map[] && locals == map[]
    {
      globals := map[];
      locals := map[];
    }

    predicate IsGlobal(name: string)
      reads this
    {
      Lower(name) in globals
    }

    predicate IsLocal(guild: nat, name: string)
      reads this
    {
      (guild, Lower(name)) in locals
    }

    /**
     * The content a call reaches: in a guild the local tag wins over the
     * global one, in a direct message only global tags count; an empty
     * content is reported as not found.
     */
    function Lookup(guild: Option<nat>, name: string): (r: Option<string>)
      reads this
      ensures r.Some? ==> r.value != ""
      ensures guild.Some? && IsLocal(guild.value, name) ==>
                r == (if locals[(guild.value, Lower(name))].content == "" then None
                      else Some(locals[(guild.value, Lower(name))].content))
      ensures (guild.None? || !IsLocal(guild.value, name)) ==>
                r == (if IsGlobal(name) && globals[Lower(name)].content != ""
                      then Some(globals[Lower(name)].content) else None)
    {
      Find(globals, locals, guild, name)
    }

    /**
     * `tag [name] <args>`: a command name is refused before any lookup;
     * otherwise the first word is looked up, and a found tag runs with the
     * rest of the arguments, trimmed in a guild.
     */
    function Call(guild: Option<nat>, args: string, nameIsCommand: bool): (r: CallOutcome)
      reads this
      ensures r == NotATag <==> nameIsCommand
      ensures !nameIsCommand ==> (r == NotFound <==> Lookup(guild, SplitFirstSpace(args)[0]).None?)
      ensures !nameIsCommand && Lookup(guild, SplitFirstSpace(args)[0]).Some? ==>
                var parts := SplitFirstSpace(args);
                var rest := if |parts| > 1 then parts[1] else "";
                r == Found(Lookup(guild, parts[0]).value, if guild.Some? then KotlinTrim(rest) else rest)
    {
      var parts := SplitFirstSpace(args);
      var rest := if |parts| > 1 then parts[1] else "";
      if nameIsCommand then NotATag
      else match Lookup(guild, parts[0])
        case None => NotFound
        case Some(content) => Found(content, if guild.Some? then KotlinTrim(rest) else rest)
    }

    /** `tag raw [name]`: the content the first word reaches, with no command-name check. */
    function Raw(guild: Option<nat>, args: string): Option<string>
      reads this
    {
      Lookup(guild, SplitFirstSpace(args)[0])
    }

    /**
     * `tag raw` shows the content a call would run, even for a command name,
     * which a call refuses.
     */
    lemma RawAgreesWithCall(guild: Option<nat>, args: string)
      ensures Raw(guild, args).Some? <==> Call(guild, args, false).Found?
      ensures Raw(guild, args).Some? ==> Raw(guild, args).value == Call(guild, args, false).content
      ensures Call(guild, args, true) == NotATag
    {
    }

    /**
     * `tag owner [name]`: in a guild the local row first, then the global
     * one; a missing row or owner id 0 is "no such tag", a local row owned
     * by 1 belongs to the server, and otherwise the row's owner is named.
     */
    function Owner(guild: Option<nat>, name: string): (r: OwnerAnswer)
      reads this
      ensures var local := guild.Some? && IsLocal(guild.value, name);
        r == NoSuchTag <==>
          if local then locals[(guild.value, Lower(name))].ownerId == NO_OWNER
          else !IsGlobal(name) || globals[Lower(name)].ownerId == NO_OWNER
      ensures r == BelongsToServer <==>
                guild.Some? && IsLocal(guild.value, name)
                && locals[(guild.value, Lower(name))].ownerId == SERVER_OWNER
      ensures r.OwnedBy? ==>
                var local := guild.Some? && IsLocal(guild.value, name);
                && r.local == local
                && r.ownerId == (if local then locals[(guild.value, Lower(name))].ownerId else globals[Lower(name)].ownerId)
                && r.ownerId != NO_OWNER && (r.local ==> r.ownerId != SERVER_OWNER)
    {
      var local := guild.Some? && IsLocal(guild.value, name);
      var ownerId :=
        if local then locals[(guild.value, Lower(name))].ownerId
        else if IsGlobal(name) then globals[Lower(name)].ownerId
        else NO_OWNER;
      if ownerId == NO_OWNER then NoSuchTag
      else if local && ownerId == SERVER_OWNER then BelongsToServer
      else OwnedBy(ownerId, local)
    }

    /**
     * `tag create [name] [content]` in guild `guild`: refused when a local or
     * a global tag of that name exists.
     */
    method CreateLocal(guild: nat, author: nat, args: string, nameIsCommand: bool) returns (r: Reply)
      modifies this`locals
      ensures var (name, content) := TagArgs(args);
        match Validate(name, nameIsCommand, content)
        case Some(why) => r == Refused(Rejected(why)) && locals == old(locals)
        case None =>
          if old(IsLocal(guild, name)) || IsGlobal(name) then r == Refused(AlreadyExists) && locals == old(locals)
          else r == Done && locals == old(locals)[(guild, Lower(name)) := Tag(name, author, content.value)]
      ensures r == Done ==> var (name, content) := TagArgs(args);
        content.Some? && Owner(Some(guild), name) == (if author == NO_OWNER then NoSuchTag
                                                      else if author == SERVER_OWNER then BelongsToServer
                                                      else OwnedBy(author, true))
        && Lookup(Some(guild), name) == (if content.value == "" then None else Some(content.value))
    {
      var (name, content) := TagArgs(args);
      var invalid := Validate(name, nameIsCommand, content);
      if invalid.Some? {
        return Refused(Rejected(invalid.value));
      }
      if IsLocal(guild, name) || IsGlobal(name) {
        return Refused(AlreadyExists);
      }
      locals := locals[(guild, Lower(name)) := Tag(name, author, content.value)];
      r := Done;
    }

    /**
     * `tag createglobal [name] [content]`: refused when a global tag of that
     * name exists, or, in a guild, a local one.
     */
    method CreateGlobal(guild: Option<nat>, author: nat, args: string, nameIsCommand: bool) returns (r: Reply)
      modifies this`globals
      ensures var (name, content) := TagArgs(args);
        match Validate(name, nameIsCommand, content)
        case Some(why) => r == Refused(Rejected(why)) && globals == old(globals)
        case None =>
          if (guild.Some? && IsLocal(guild.value, name)) || old(IsGlobal(name))
          then r == Refused(AlreadyExists) && globals == old(globals)
          else r == Done && globals == old(globals)[Lower(name) := Tag(name, author, content.value)]
    {
      var (name, content) := TagArgs(args);
      var invalid := Validate(name, nameIsCommand, content);
      if invalid.Some? {
        return Refused(Rejected(invalid.value));
      }
      if (guild.Some? && IsLocal(guild.value, name)) || IsGlobal(name) {
        return Refused(AlreadyExists);
      }
      globals := globals[Lower(name) := Tag(name, author, content.value)];
      r := Done;
    }

    /**
     * `tag delete [name]`: in a guild the local tag is the target when there
     * is one, else the global tag; only its owner may delete it.
     */
    method Delete(guild: Option<nat>, author: nat, args: string) returns (r: Reply)
      modifies this`globals, this`locals
      ensures var name := SplitFirstSpace(args)[0];
        var key := Lower(name);
        if guild.Some? && old(IsLocal(guild.value, name)) then
          globals == old(globals)
          && (if old(locals)[(guild.value, key)].ownerId == author
              then r == Done && locals == old(locals) - {(guild.value, key)}
              else r == Refused(NotOwner(true)) && locals == old(locals))
        else
          locals == old(locals)
          && (if key !in old(globals) then r == Refused(NotExist) && globals == old(globals)
              else if old(globals)[key].ownerId == author
              then r == Done && globals == old(globals) - {key}
              else r == Refused(NotOwner(false)) && globals == old(globals))
    {
      var name := SplitFirstSpace(args)[0];
      var key := Lower(name);
      if guild.Some? && IsLocal(guild.value, name) {
        if locals[(guild.value, key)].ownerId == author {
          locals := locals - {(guild.value, key)};
          r := Done;
        } else {
          r := Refused(NotOwner(true));
        }
      } else if key !in globals {
        r := Refused(NotExist);
      } else if globals[key].ownerId == author {
        globals := globals - {key};
        r := Done;
      } else {
        r := Refused(NotOwner(false));
      }
    }

    /**
     * `tag edit [name] [content]`: validated like a create, then the local
     * tag first, else the global one; only its owner may edit it.
     */
    method Edit(guild: Option<nat>, author: nat, args: string, nameIsCommand: bool) returns (r: Reply)
      modifies this`globals, this`locals
      ensures var (name, content) := TagArgs(args);
        var key := Lower(name);
        match Validate(name, nameIsCommand, content)
        case Some(why) => r == Refused(Rejected(why)) && globals == old(globals) && locals == old(locals)
        case None =>
          if guild.Some? && old(IsLocal(guild.value, name)) then
            globals == old(globals)
            && (if old(locals)[(guild.value, key)].ownerId == author
                then r == Done
                     && locals == old(locals)[(guild.value, key) :=
                                               old(locals)[(guild.value, key)].(content := content.value)]
                else r == Refused(NotOwner(true)) && locals == old(locals))
          else
            locals == old(locals)
            && (if key !in old(globals) then r == Refused(NotExist) && globals == old(globals)
                else if old(globals)[key].ownerId == author
                then r == Done && globals == old(globals)[key := old(globals)[key].(content := content.value)]
                else r == Refused(NotOwner(false)) && globals == old(globals))
    {
      var (name, content) := TagArgs(args);
      var invalid := Validate(name, nameIsCommand, content);
      if invalid.Some? {
        return Refused(Rejected(invalid.value));
      }
      var key := Lower(name);
      if guild.Some? && IsLocal(guild.value, name) {
        var tag := locals[(guild.value, key)];
        if tag.ownerId == author {
          locals := locals[(guild.value, key) := tag.(content := content.value)];
          r := Done;
        } else {
          r := Refused(NotOwner(true));
        }
      } else if key !in globals {
        r := Refused(NotExist);
      } else if globals[key].ownerId == author {
        globals := globals[key := globals[key].(content := content.value)];
        r := Done;
      } else {
        r := Refused(NotOwner(false));
      }
    }

    /**
     * `tag override [name] [content]` as evidently intended: a global tag
     * with no local version gets a server-owned local copy with the new
     * content; an existing local tag becomes server-owned with the new
     * content. It is refused when the tag's owner is the guild owner or out
     * of the caller's reach.
     */
    method Override(guild: nat, args: string, standing: nat -> Standing) returns (r: Reply)
      modifies this`locals
      ensures var (name, content) := TagArgs(args);
        var key := Lower(name);
        match ValidateOverride(name, content)
        case Some(why) => r == Refused(Rejected(why)) && locals == old(locals)
        case None =>
          if (guild, key) in old(locals) then
            var tag := old(locals)[(guild, key)];
            if Blocked(standing(tag.ownerId)) then r == Refused(CannotInteract) && locals == old(locals)
            else r == Done
                 && locals == old(locals)[(guild, key) := Tag(tag.name, SERVER_OWNER, content.value)]
          else if key !in globals then r == Refused(NotExist) && locals == old(locals)
          else if Blocked(standing(globals[key].ownerId)) then r == Refused(CannotInteract) && locals == old(locals)
          else r == Done
               && locals == old(locals)[(guild, key) := Tag(globals[key].name, SERVER_OWNER, content.value)]
      ensures r == Done ==> var (name, content) := TagArgs(args);
        content.Some? && Owner(Some(guild), name) == BelongsToServer
        && Lookup(Some(guild), name) == (if content.value == "" then None else Some(content.value))
    {
      var (name, content) := TagArgs(args);
      var invalid := ValidateOverride(name, content);
      if invalid.Some? {
        return Refused(Rejected(invalid.value));
      }
      var key := Lower(name);
      if (guild, key) in locals {
        var tag := locals[(guild, key)];
        if Blocked(standing(tag.ownerId)) {
          return Refused(CannotInteract);
        }
        locals := locals[(guild, key) := Tag(tag.name, SERVER_OWNER, content.value)];
        r := Done;
      } else if key !in globals {
        r := Refused(NotExist);
      } else if Blocked(standing(globals[key].ownerId)) {
        r := Refused(CannotInteract);
      } else {
        locals := locals[(guild, key) := Tag(globals[key].name, SERVER_OWNER, content.value)];
        r := Done;
      }
    }
  }

  // ------------------------------------------------------------ properties over table values

  /** `Lookup` over table values. */
  function Find(globals: map<string, Tag>, locals: map<(nat, string), Tag>, guild: Option<nat>, name: string): Option<string>
  {
    var key := Lower(name);
    var content :=
      if guild.Some? && (guild.value, key) in locals then locals[(guild.value, key)].content
      else if key in globals then globals[key].content
      else "";
    if content == "" then None else Some(content)
  }

  /** In a direct message local tags are never reached. */
  lemma DirectMessagesSeeOnlyGlobals(globals: map<string, Tag>, locals: map<(nat, string), Tag>,
                                     locals': map<(nat, string), Tag>, name: string)
    ensures Find(globals, locals, None, name) == Find(globals, locals', None, name)
  {
  }

  /** Lookup ignores case: the key is the lower-cased name. */
  lemma FindIgnoresCase(globals: map<string, Tag>, locals: map<(nat, string), Tag>, guild: Option<nat>, a: string, b: string)
    requires Lower(a) == Lower(b)
    ensures Find(globals, locals, guild, a) == Find(globals, locals, guild, b)
  {
  }

  /** After a local create, the tag is reached in that guild with the new content. */
  lemma CreatedIsFound(globals: map<string, Tag>, locals: map<(nat, string), Tag>, guild: nat,
                       name: string, author: nat, content: string)
    requires content != ""
    ensures Find(globals, locals[(guild, Lower(name)) := Tag(name, author, content)], Some(guild), name)
            == Some(content)
  {
  }

  /** After an override, the tag is server-owned and answers the new content. */
  lemma OverriddenIsServerOwned(locals: map<(nat, string), Tag>, globals: map<string, Tag>,
                                guild: nat, name: string, original: string, content: string)
    requires content != ""
    ensures var l := locals[(guild, Lower(name)) := Tag(original, SERVER_OWNER, content)];
      Find(globals, l, Some(guild), name) == Some(content)
      && l[(guild, Lower(name))].ownerId == SERVER_OWNER
  {
  }

  // ------------------------------------------------------------ Override as written

  /** What `Override` as written does with the tables. */
  datatype OverrideAction =
    | OverrideRefused(refusal: Refusal)
      /** `overrideTag`: updates the local row named `name` owned by `ownerId`, if any. */
    | UpdateLocal(name: string, ownerId: nat, content: string)
      /** `addTag`: inserts a further local row named `name`, owned by the server. */
    | InsertLocal(name: string, content: string)

  /**
   * `Override` as written, after its validation: without a local tag it
   * refuses exactly when a global tag exists, and otherwise updates a local
   * row that does not exist; with a local tag it checks the global tag's
   * owner and inserts a second local row. The hierarchy check refuses when
   * the caller can interact with the owner.
   */
  function OverrideAsWritten(globals: map<string, Tag>, locals: map<(nat, string), Tag>, guild: nat,
                             name: string, content: string, standing: nat -> Standing): OverrideAction
  {
    var key := Lower(name);
    var globalOwner := if key in globals then globals[key].ownerId else NO_OWNER;
    var originalName := if key in globals then globals[key].name else "";
    if (guild, key) !in locals then
      if key in globals then OverrideRefused(NotExist)
      else if BlockedAsWritten(standing(globalOwner)) then OverrideRefused(CannotInteract)
      else UpdateLocal(originalName, globalOwner, content)
    else if BlockedAsWritten(standing(globalOwner)) then OverrideRefused(CannotInteract)
    else InsertLocal(originalName, content)
  }

  /** Overriding an existing global tag, with no local version, is refused as "does not exist". */
  lemma OverrideOfGlobalRefused(globals: map<string, Tag>, locals: map<(nat, string), Tag>,
                                guild: nat, name: string, content: string, standing: nat -> Standing)
    requires Lower(name) in globals && (guild, Lower(name)) !in locals
    ensures OverrideAsWritten(globals, locals, guild, name, content, standing) == OverrideRefused(NotExist)
  {
  }

  /**
   * With no tag of that name anywhere, `Override` as written goes ahead: it
   * updates the local row named "" owned by 0, which no create makes.
   */
  lemma OverrideOfNothingProceeds(guild: nat, name: string, content: string)
    ensures OverrideAsWritten(map[], map[], guild, name, content, (id: nat) => NotMember)
            == UpdateLocal("", NO_OWNER, content)
  {
  }

  /** A caller who can interact with a member owner is refused as written, and let through as intended. */
  lemma OverrideHierarchyInverted(isOwner: bool)
    ensures BlockedAsWritten(Member(false, true)) && !Blocked(Member(false, true))
    ensures !BlockedAsWritten(Member(false, false)) && Blocked(Member(false, false))
    ensures BlockedAsWritten(Member(true, isOwner)) && Blocked(Member(true, isOwner))
  {
  }
}
