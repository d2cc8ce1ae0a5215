/**
 * The main tree's command index (`CommandMap`): an immutable collection of
 * commands with a hash index from every lower-cased name and alias to
 * the position of the command that owns it.
 */
module CommandIndex {
  import opened Util

  /** What the index reads of a command. */
  datatype Named = Named(name: string, aliases: seq<string>)

  /** The lower-cased aliases. */
  function AliasKeys(aliases: seq<string>): set<string>
  {
    if aliases == [] then {} else AliasKeys(aliases[..|aliases| - 1]) + {Lower(aliases[|aliases| - 1])}
  }

  /** The keys a command puts into the index. */
  function Keys(c: Named): set<string>
  {
    {Lower(c.name)} + AliasKeys(c.aliases)
  }

  /** The keys of every command of `cmds`. */
  function AllKeys(cmds: seq<Named>): set<string>
  {
    if cmds == [] then {} else AllKeys(cmds[..|cmds| - 1]) + Keys(cmds[|cmds| - 1])
  }

  lemma {:induction false} AllKeysOwned(cmds: seq<Named>, k: string)
    ensures k in AllKeys(cmds) <==> exists j :: 0 <= j < |cmds| && k in Keys(cmds[j])
    decreases |cmds|
  {
    if cmds != [] {
      var p := cmds[..|cmds| - 1];
      AllKeysOwned(p, k);
      if k in AllKeys(p) {
        var j :| 0 <= j < |p| && k in Keys(p[j]);
        assert cmds[j] == p[j];
      }
      if exists j :: 0 <= j < |cmds| && k in Keys(cmds[j]) {
        var j :| 0 <= j < |cmds| && k in Keys(cmds[j]);
        if j < |p| {
          assert p[j] == cmds[j];
        }
      }
    }
  }

  /** Every key a command puts into the index is already lower case. */
  lemma {:induction false} AliasKeysAreLower(aliases: seq<string>, k: string)
    requires k in AliasKeys(aliases)
    ensures Lower(k) == k
    decreases |aliases|
  {
    var last := aliases[|aliases| - 1];
    if k == Lower(last) {
      LowerIdempotent(last);
    } else {
      AliasKeysAreLower(aliases[..|aliases| - 1], k);
    }
  }

  lemma KeysAreLower(c: Named, k: string)
    requires k in Keys(c)
    ensures Lower(k) == k
  {
    if k == Lower(c.name) {
      LowerIdempotent(c.name);
    } else {
      AliasKeysAreLower(c.aliases, k);
    }
  }

  /** `command.aliases.forEach { map.put(it.toLowerCase(), index) }`. */
  function PutAliases(m: map<string, nat>, aliases: seq<string>, i: nat): map<string, nat>
  {
    if aliases == [] then m
    else PutAliases(m, aliases[..|aliases| - 1], i)[Lower(aliases[|aliases| - 1]) := i]
  }

  /** What one pass of `forEachIndexed` puts for command `c` at index `i`. */
  function PutCommand(m: map<string, nat>, c: Named, i: nat): map<string, nat>
  {
    PutAliases(m[Lower(c.name) := i], c.aliases, i)
  }

  /** The index after `init` has seen `cmds`. */
  function BuiltIndex(cmds: seq<Named>): map<string, nat>
  {
    if cmds == [] then map[]
    else PutCommand(BuiltIndex(cmds[..|cmds| - 1]), cmds[|cmds| - 1], |cmds| - 1)
  }

  lemma {:induction false} PutAliasesSpec(m: map<string, nat>, aliases: seq<string>, i: nat)
    ensures PutAliases(m, aliases, i).Keys == m.Keys + AliasKeys(aliases)
    ensures forall k :: k in PutAliases(m, aliases, i) ==>
      PutAliases(m, aliases, i)[k] == if k in AliasKeys(aliases) then i else m[k]
    decreases |aliases|
  {
    if aliases != [] {
      PutAliasesSpec(m, aliases[..|aliases| - 1], i);
    }
  }

  /** One command's pass: its keys now map to it, every other key is as before. */
  lemma PutCommandSpec(m: map<string, nat>, c: Named, i: nat)
    ensures PutCommand(m, c, i).Keys == m.Keys + Keys(c)
    ensures forall k :: k in PutCommand(m, c, i) ==>
      PutCommand(m, c, i)[k] == if k in Keys(c) then i else m[k]
  {
    PutAliasesSpec(m[Lower(c.name) := i], c.aliases, i);
  }

  /** After construction the keys are exactly those some command owns. */
  lemma {:induction false} BuiltKeys(cmds: seq<Named>)
    ensures BuiltIndex(cmds).Keys == AllKeys(cmds)
    decreases |cmds|
  {
    if cmds != [] {
      var p := cmds[..|cmds| - 1];
      BuiltKeys(p);
      PutCommandSpec(BuiltIndex(p), cmds[|cmds| - 1], |cmds| - 1);
    }
  }

  /** Each key maps to a command that owns it. */
  lemma {:induction false} BuiltOwner(cmds: seq<Named>, k: string)
    requires k in BuiltIndex(cmds)
    ensures BuiltIndex(cmds)[k] < |cmds| && k in Keys(cmds[BuiltIndex(cmds)[k]])
    decreases |cmds|
  {
    var p := cmds[..|cmds| - 1];
    var last := |cmds| - 1;
    PutCommandSpec(BuiltIndex(p), cmds[last], last);
    if k !in Keys(cmds[last]) {
      BuiltOwner(p, k);
      assert p[BuiltIndex(p)[k]] == cmds[BuiltIndex(p)[k]];
    }
  }

  /** No later command owns the key: on a collision the later command wins. */
  lemma {:induction false} BuiltLast(cmds: seq<Named>, k: string, j: nat)
    requires k in BuiltIndex(cmds) && BuiltIndex(cmds)[k] < j < |cmds|
    ensures k !in Keys(cmds[j])
    decreases |cmds|
  {
    var p := cmds[..|cmds| - 1];
    var last := |cmds| - 1;
    PutCommandSpec(BuiltIndex(p), cmds[last], last);
    if j < last {
      BuiltLast(p, k, j);
      assert p[j] == cmds[j];
    }
  }

  /**
   * After construction the keys are exactly those some command owns, and
   * each maps to the LAST command that owns it.
   */
  lemma BuiltIndexSpec(cmds: seq<Named>)
    ensures BuiltIndex(cmds).Keys == AllKeys(cmds)
    ensures forall k :: k in BuiltIndex(cmds) ==>
      BuiltIndex(cmds)[k] < |cmds| && k in Keys(cmds[BuiltIndex(cmds)[k]])
    ensures forall k, j :: k in BuiltIndex(cmds) && BuiltIndex(cmds)[k] < j < |cmds| ==> k !in Keys(cmds[j])
  {
    BuiltKeys(cmds);
    forall k | k in BuiltIndex(cmds)
      ensures BuiltIndex(cmds)[k] < |cmds| && k in Keys(cmds[BuiltIndex(cmds)[k]])
    {
      BuiltOwner(cmds, k);
    }
    forall k, j | k in BuiltIndex(cmds) && BuiltIndex(cmds)[k] < j < |cmds|
      ensures k !in Keys(cmds[j])
    {
      BuiltLast(cmds, k, j);
    }
  }

  class CommandMap {
    /** The backing array, in constructor order; `iterator()` walks it. */
    const commands: seq<Named>
    /** The backing `HashMap` from lower-cased names and aliases to positions. */
    const index: map<string, nat>

    ghost predicate Valid()
    {
      index == BuiltIndex(commands)
    }

    /** `init`: the `forEachIndexed` loop, name first, then each alias. */
    constructor (cmds: seq<Named>)
      ensures commands == cmds && index == BuiltIndex(cmds)
      ensures Valid()
    {
      var m: map<string, nat> := map[];
      var i := 0;
      while i < |cmds|
        invariant 0 <= i <= |cmds|
        invariant m == BuiltIndex(cmds[..i])
      {
        assert cmds[..i + 1][..i] == cmds[..i];
        m := m[Lower(cmds[i].name) := i];
        var j := 0;
        while j < |cmds[i].aliases|
          invariant 0 <= j <= |cmds[i].aliases|
          invariant m == PutAliases(BuiltIndex(cmds[..i])[Lower(cmds[i].name) := i], cmds[i].aliases[..j], i)
        {
          assert cmds[i].aliases[..j + 1][..j] == cmds[i].aliases[..j];
          m := m[Lower(cmds[i].aliases[j]) := i];
          j := j + 1;
        }
        assert cmds[i].aliases[..j] == cmds[i].aliases;
        i := i + 1;
      }
      assert cmds[..|cmds|] == cmds;
      commands := cmds;
      index := m;
    }

    /** `size`: the number of commands, not of keys. */
    function Size(): (n: nat)
      ensures n == |commands|
    {
      |commands|
    }

    /** `containsName`: case-insensitive. */
    predicate ContainsName(name: string)
    {
      Lower(name) in index
    }

    /** `get` / `getCommandByName`: `commands.getOrNull(map.getOrDefault(key, -1))`. */
    function Get(name: string): (r: Option<Named>)
      ensures r.Some? ==> r.value in commands
      ensures r.None? <==> !ContainsName(name) || index[Lower(name)] >= |commands|
    {
      if ContainsName(name) then
        var i := index[Lower(name)];
        if i < |commands| then Some(commands[i]) else None
      else None
    }

    /** `containsAllNames`, as written: the names are not lower-cased. */
    predicate ContainsAllNames(names: seq<string>)
    {
      forall k :: 0 <= k < |names| ==> names[k] in index
    }

    /** `containsAllNames` as its documentation promises, case-insensitive. */
    predicate ContainsAllNamesCorrected(names: seq<string>)
    {
      forall k :: 0 <= k < |names| ==> Lower(names[k]) in index
    }

    /** `contains(element)` and `containsAll`: membership in the backing array. */
    predicate ContainsCommand(c: Named)
    {
      c in commands
    }

    predicate ContainsAll(cs: seq<Named>)
    {
      forall k :: 0 <= k < |cs| ==> cs[k] in commands
    }

    /** `isEmpty()`. */
    predicate IsEmpty()
    {
      commands == [] && index == map[]
    }

    /**
     * `get` is case-insensitive and null exactly when no command has that
     * name or alias; otherwise it is the last command that has it.
     */
    lemma GetFindsLastOwner(name: string)
      requires Valid()
      ensures Get(name).Some? <==> exists j :: 0 <= j < |commands| && Lower(name) in Keys(commands[j])
      ensures Get(name).Some? ==> Lower(name) in Keys(Get(name).value)
      ensures Get(name).Some? ==>
        exists j :: (0 <= j < |commands| && commands[j] == Get(name).value
          && forall j' :: j < j' < |commands| ==> Lower(name) !in Keys(commands[j']))
      ensures forall other :: EqIgnoreCase(name, other) ==> Get(other) == Get(name)
    {
      BuiltIndexSpec(commands);
      AllKeysOwned(commands, Lower(name));
      if Get(name).Some? {
        var j := index[Lower(name)];
        assert commands[j] == Get(name).value;
      }
    }

    /** Each command can be found under its own name and under each alias. */
    lemma GetByOwnKey(j: nat, key: string)
      requires Valid() && j < |commands| && Lower(key) in Keys(commands[j])
      ensures Get(key).Some? && Lower(key) in Keys(Get(key).value)
    {
      BuiltIndexSpec(commands);
      AllKeysOwned(commands, Lower(key));
    }

    /** `isEmpty()` holds exactly when there are no commands. */
    lemma IsEmptyIffNoCommands()
      requires Valid()
      ensures IsEmpty() <==> Size() == 0
    {
      BuiltIndexSpec(commands);
      if commands != [] {
        AllKeysOwned(commands, Lower(commands[0].name));
        assert Lower(commands[0].name) in index;
      }
    }

    /**
     * The corrected `containsAllNames` holds exactly when every name, in any
     * case, is the name or an alias of some command, that is when `get` finds
     * each of them; the check as written implies it, since every key of the
     * index is already lower case.
     */
    lemma CorrectedContainsAllNames(names: seq<string>)
      requires Valid()
      ensures ContainsAllNamesCorrected(names) <==>
        forall k :: 0 <= k < |names| ==> exists j :: 0 <= j < |commands| && Lower(names[k]) in Keys(commands[j])
      ensures ContainsAllNamesCorrected(names) <==> forall k :: 0 <= k < |names| ==> Get(names[k]).Some?
      ensures ContainsAllNames(names) ==> ContainsAllNamesCorrected(names)
    {
      BuiltKeys(commands);
      forall k | 0 <= k < |names|
        ensures Lower(names[k]) in index <==> exists j :: 0 <= j < |commands| && Lower(names[k]) in Keys(commands[j])
        ensures Lower(names[k]) in index <==> Get(names[k]).Some?
        ensures names[k] in index ==> Lower(names[k]) in index
      {
        AllKeysOwned(commands, Lower(names[k]));
        if Lower(names[k]) in index {
          BuiltOwner(commands, Lower(names[k]));
        }
        if names[k] in index {
          AllKeysOwned(commands, names[k]);
          var j :| 0 <= j < |commands| && names[k] in Keys(commands[j]);
          KeysAreLower(commands[j], names[k]);
        }
      }
    }
  }

  /** `containsAllNames(listOf("PING"))` is false although `"PING" in map` is true. */
  lemma ContainsAllNamesIsCaseSensitive(m: CommandMap)
    requires m.Valid() && m.commands == [Named("ping", [])]
    ensures m.ContainsName("PING") && m.Get("PING") == Some(Named("ping", []))
    ensures !m.ContainsAllNames(["PING"])
    ensures m.ContainsAllNamesCorrected(["PING"])
  {
    assert Lower("PING") == "ping";
    assert Lower("ping") == "ping";
    BuiltIndexSpec(m.commands);
    assert Keys(Named("ping", [])) == {"ping"};
    assert AllKeys(m.commands) == {"ping"};
    assert "PING"[0] != "ping"[0];
    assert ["PING"][0] !in m.index;
  }
}
