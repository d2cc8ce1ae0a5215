/**
 * The OrderedMenu of the rewrite and of the commons library: a list of
 * up to ten choices labelled by keycap or letter emotes, picked by
 * reacting with the label or by typing its number or letter. Both
 * versions decode reactions and typed text the same way.
 */
module OrderedMenus {
  import opened Util
  import Misc

  /** The keycap emotes 1 … 9 and the "10" emote (`numbers`). */
  const NUMBERS: seq<string> := [
    "1\U{20E3}", "2\U{20E3}", "3\U{20E3}", "4\U{20E3}", "5\U{20E3}",
    "6\U{20E3}", "7\U{20E3}", "8\U{20E3}", "9\U{20E3}", "\U{1F51F}"
  ]

  /** The regional-indicator emotes A … J (`letters`). */
  const LETTERS: seq<string> := [
    "\U{1F1E6}", "\U{1F1E7}", "\U{1F1E8}", "\U{1F1E9}", "\U{1F1EA}",
    "\U{1F1EB}", "\U{1F1EC}", "\U{1F1ED}", "\U{1F1EE}", "\U{1F1EF}"
  ]

  /** The ❌ emote of the cancel button. */
  const CANCEL: string := "\U{274C}"

  /** `numbers.modifyIf(useLetters) { letters }`: the labels in use. */
  function Table(useLetters: bool): (t: seq<string>)
    ensures |t| == 10 && NoDups(t) && CANCEL !in t
  {
    Misc.ModifyIf(NUMBERS, useLetters, _ => LETTERS)
  }

  /** `Int.emoji`: the label of choice `i`; past ten the array lookup throws. */
  function Emoji(useLetters: bool, i: nat): (r: Result<string>)
    ensures r.Ok? <==> i < 10
    ensures r.Ok? ==> r.value in Table(useLetters) && r.value != CANCEL
  {
    if i < 10 then Ok(Table(useLetters)[i]) else Err("ArrayIndexOutOfBoundsException")
  }

  /** Index of the first entry of `t` from `from` on that equals `x`, or -1. */
  function FirstIndexFrom(t: seq<string>, x: string, from: nat): (r: int)
    requires from <= |t|
    decreases |t| - from
    ensures r == -1 || (from <= r < |t| && t[r] == x)
    ensures r == -1 <==> forall k :: from <= k < |t| ==> t[k] != x
    ensures r != -1 ==> forall k :: from <= k < r ==> t[k] != x
  {
    if from == |t| then -1
    else if t[from] == x then from
    else FirstIndexFrom(t, x, from + 1)
  }

  /** `String.number`: which label an emote name is, or -1 for any other emote. */
  function Number(useLetters: bool, name: string): int
  {
    FirstIndexFrom(Table(useLetters), name, 0)
  }

  /** Label and number are inverse lookups. */
  lemma NumberOfEmoji(useLetters: bool, i: nat, name: string)
    ensures i < 10 ==> Number(useLetters, Emoji(useLetters, i).value) == i
    ensures Number(useLetters, name) >= 0 ==>
      Emoji(useLetters, Number(useLetters, name) as nat) == Ok(name)
    ensures Number(useLetters, name) == -1 <==> name !in Table(useLetters)
  {
    var t := Table(useLetters);
    if i < 10 {
      var n := Number(useLetters, t[i]);
      assert t[n] == t[i];
    }
    if name in t {
      var k :| 0 <= k < |t| && t[k] == name;
      assert t[k] == name;
    }
  }

  // --------------------------------------------------------- typed input

  const LETTER_KEYS: string := " abcdefghij"
  const DIGIT_KEYS: string := " 123456789"

  /**
   * `String.messageNumber`: with letters, a single character's position in
   * `" abcdefghij"` after lower-casing; with numbers, a single character's
   * position in `" 123456789"`, or 10 for `"10"`; -1 otherwise.
   */
  function MessageNumber(useLetters: bool, content: string): (r: int)
    ensures -1 <= r <= 10
    ensures |content| != 1 && content != "10" ==> r == -1
  {
    var r := if useLetters then (if |content| == 1 then IndexOf(LETTER_KEYS, Lower(content)) else -1)
             else if |content| == 1 then IndexOf(DIGIT_KEYS, content)
             else if content == "10" then 10
             else -1;
    r
  }

  lemma IndexOfSingle(keys: string, c: char, k: nat)
    requires k < |keys| && keys[k] == c
    requires forall j :: 0 <= j < k ==> keys[j] != c
    ensures IndexOf(keys, [c]) == k
  {
    assert OccursAt(keys, [c], k);
  }

  lemma LetterNumber(i: nat, c: char)
    requires 1 <= i <= 10 && LowerChar(c) == LETTER_KEYS[i]
    ensures MessageNumber(true, [c]) == i
  {
    assert Lower([c]) == [LETTER_KEYS[i]];
    IndexOfSingle(LETTER_KEYS, LETTER_KEYS[i], i);
  }

  lemma DigitNumber(i: nat)
    requires 1 <= i <= 10
    ensures MessageNumber(false, NatToString(i)) == i
  {
    if i < 10 {
      assert NatToString(i) == [DIGIT_KEYS[i]];
      IndexOfSingle(DIGIT_KEYS, DIGIT_KEYS[i], i);
    } else {
      assert NatToString(10) == "10";
    }
  }

  lemma SpaceNumber()
    ensures MessageNumber(true, " ") == 0 && MessageNumber(false, " ") == 0
  {
    assert Lower(" ") == " ";
    IndexOfSingle(LETTER_KEYS, ' ', 0);
    IndexOfSingle(DIGIT_KEYS, ' ', 0);
  }

  /**
   * Typing the letter (in either case) or the number of the `i`-th label,
   * counting from 1, gives `i`; a typed space gives 0.
   */
  lemma MessageNumberOfLabel(i: nat, c: char)
    requires 1 <= i <= 10
    ensures LowerChar(c) == LETTER_KEYS[i] ==> MessageNumber(true, [c]) == i
    ensures MessageNumber(false, NatToString(i)) == i
    ensures MessageNumber(true, " ") == 0 && MessageNumber(false, " ") == 0
  {
    if LowerChar(c) == LETTER_KEYS[i] {
      LetterNumber(i, c);
    }
    DigitNumber(i);
    SpaceNumber();
  }

  // ------------------------------------------------------------ choosing

  /** What the menu's action does: run a choice, run `finalAction`, or throw. */
  datatype Outcome = Choose(index: nat) | Final | OutOfBounds

  /** `MessageReactionAddEvent.isValid`: `0 <= num <= choices.size`, as written. */
  predicate ReactionValid(useLetters: bool, useCancel: bool, size: nat,
                          onThisMessage: bool, validUser: bool, name: string)
  {
    onThisMessage && validUser &&
    ((name == CANCEL && useCancel) ||
     !(Number(useLetters, name) < 0 || Number(useLetters, name) > size))
  }

  /** The reaction branch of the action: `choices[name.number]`. */
  function ReactionOutcome(useLetters: bool, useCancel: bool, size: nat, name: string): Outcome
  {
    if name == CANCEL && useCancel then Final
    else
      var n := Number(useLetters, name);
      if 0 <= n < size then Choose(n) else OutOfBounds
  }

  /** The typed branch of the action: `choices[num]`, as written. */
  function TypedOutcome(useLetters: bool, size: nat, content: string): Outcome
  {
    var num := MessageNumber(useLetters, content);
    if num < 0 || num > size then Final
    else if num < size then Choose(num)
    else OutOfBounds
  }

  /**
   * With three choices the filter accepts the fourth keycap, which the
   * menu never shows, and the action then indexes past the list.
   */
  lemma ReactionPastLastChoice()
    ensures ReactionValid(false, false, 3, true, true, NUMBERS[3])
    ensures ReactionOutcome(false, false, 3, NUMBERS[3]) == OutOfBounds
  {
    NumberOfEmoji(false, 3, NUMBERS[3]);
  }

  /**
   * Typing "1" runs the second choice, and typing the number of the last
   * choice indexes past the list.
   */
  lemma TypedNumberOffByOne()
    ensures TypedOutcome(false, 3, "1") == Choose(1)
    ensures TypedOutcome(false, 3, "3") == OutOfBounds
  {
    DigitNumber(1);
    DigitNumber(3);
    assert NatToString(1) == "1" && NatToString(3) == "3";
  }

  /** The reaction filter bounded by the choices shown. */
  predicate ReactionValidCorrected(useLetters: bool, useCancel: bool, size: nat,
                                   onThisMessage: bool, validUser: bool, name: string)
  {
    onThisMessage && validUser &&
    ((name == CANCEL && useCancel) || 0 <= Number(useLetters, name) < size)
  }

  /** The typed branch counting choices from 1, as the labels do. */
  function TypedOutcomeCorrected(useLetters: bool, size: nat, content: string): Outcome
  {
    var num := MessageNumber(useLetters, content);
    if 1 <= num <= size then Choose(num - 1) else Final
  }

  /**
   * With the corrected filter an accepted reaction never throws: it runs
   * exactly the choice whose label it is, or cancels.
   */
  lemma CorrectedReactionPicksLabel(useLetters: bool, useCancel: bool, size: nat,
                                    onThisMessage: bool, validUser: bool, name: string, i: nat)
    requires ReactionValidCorrected(useLetters, useCancel, size, onThisMessage, validUser, name)
    ensures ReactionOutcome(useLetters, useCancel, size, name) != OutOfBounds
    ensures ReactionValidCorrected(useLetters, useCancel, size, onThisMessage, validUser, name) ==>
      ReactionValid(useLetters, useCancel, size, onThisMessage, validUser, name)
    ensures i < size && i < 10 && name == Emoji(useLetters, i).value ==>
      ReactionOutcome(useLetters, useCancel, size, name) == Choose(i)
  {
    if i < size && i < 10 && name == Emoji(useLetters, i).value {
      NumberOfEmoji(useLetters, i, name);
    }
  }

  /**
   * With the corrected typed branch, typing the label of choice `i`
   * (its number, or its letter in either case) runs choice `i`, and
   * nothing typed indexes past the list.
   */
  lemma CorrectedTypedPicksLabel(size: nat, content: string, i: nat, c: char)
    requires size <= 10
    ensures TypedOutcomeCorrected(true, size, content) != OutOfBounds
    ensures TypedOutcomeCorrected(false, size, content) != OutOfBounds
    ensures TypedOutcomeCorrected(true, size, content).Choose? ==>
      TypedOutcomeCorrected(true, size, content).index < size
    ensures i < size ==> TypedOutcomeCorrected(false, size, NatToString(i + 1)) == Choose(i)
    ensures i < size && LowerChar(c) == LETTER_KEYS[i + 1] ==>
      TypedOutcomeCorrected(true, size, [c]) == Choose(i)
  {
    if i < size {
      MessageNumberOfLabel(i + 1, c);
    }
  }

  // ------------------------------------------------------------ display

  /**
   * `displayIn`/`displayAs`: a menu that only takes reactions cannot be
   * shown in a text channel where the bot may not add reactions.
   */
  function CheckDisplay(inTextChannel: bool, allowTypedInput: bool, canAddReactions: bool): (r: Result<bool>)
    ensures r.Err? <==> inTextChannel && !allowTypedInput && !canAddReactions
  {
    if inTextChannel && !allowTypedInput && !canAddReactions then
      Err("PermissionException: Must be able to add reactions if not allowing typed input!")
    else Ok(true)
  }

  /**
   * The embed's lines: `"\n${i.emoji} $c"` for every choice in order. A
   * menu with more than ten choices has no label for the eleventh.
   */
  method RenderChoices(useLetters: bool, choices: seq<string>) returns (r: Result<seq<string>>)
    ensures r.Ok? <==> |choices| <= 10
    ensures r.Ok? ==> |r.value| == |choices|
    ensures r.Ok? ==> forall i :: 0 <= i < |choices| ==>
      r.value[i] == "\n" + Table(useLetters)[i] + " " + choices[i]
  {
    var lines: seq<string> := [];
    var i := 0;
    while i < |choices|
      invariant 0 <= i <= |choices| && i <= 10
      invariant |lines| == i
      invariant forall j :: 0 <= j < i ==> lines[j] == "\n" + Table(useLetters)[j] + " " + choices[j]
    {
      var e := Emoji(useLetters, i);
      if e.Err? {
        return Err(e.error);
      }
      lines := lines + ["\n" + e.value + " " + choices[i]];
      i := i + 1;
    }
    r := Ok(lines);
  }

  /**
   * `initialize`: the reactions added, one label per choice and then the
   * cancel button, and whether the menu goes on to wait; with no choices
   * the loop never reaches its last run and nothing waits.
   */
  method InitialReactions(useLetters: bool, useCancel: bool, size: nat)
    returns (r: Result<seq<string>>, waits: bool)
    ensures r.Ok? <==> size <= 10
    ensures r.Ok? ==> r.value == Table(useLetters)[..size] + (if useCancel && size > 0 then [CANCEL] else [])
    ensures waits <==> r.Ok? && size > 0
  {
    var t := Table(useLetters);
    var added: seq<string> := [];
    waits := false;
    var i := 0;
    while i < size
      invariant 0 <= i <= size && i <= 10
      invariant i == 0 ==> added == [] && !waits
      invariant i < size ==> added == t[..i] && !waits
      invariant i == size && size > 0 ==> added == t[..i] + (if useCancel then [CANCEL] else []) && waits
    {
      var e := Emoji(useLetters, i);
      if e.Err? {
        return Err(e.error), false;
      }
      assert e.value == t[i];
      assert t[..i + 1] == t[..i] + [e.value];
      added := added + [e.value];
      if i == size - 1 {
        if useCancel {
          added := added + [CANCEL];
        }
        waits := true;
      }
      i := i + 1;
    }
    r := Ok(added);
  }

  /**
   * Every line the menu shows is labelled with the emote that picks it
   * back under the corrected filter.
   */
  lemma RenderedLabelsPick(useLetters: bool, useCancel: bool, choices: seq<string>, i: nat)
    requires |choices| <= 10 && i < |choices|
    ensures ReactionValidCorrected(useLetters, useCancel, |choices|, true, true, Table(useLetters)[i])
    ensures ReactionOutcome(useLetters, useCancel, |choices|, Table(useLetters)[i]) == Choose(i)
  {
    NumberOfEmoji(useLetters, i, Table(useLetters)[i]);
  }

  // ------------------------------------------------------------ builder

  /** `OrderedMenu.Builder`: the choice names in insertion order and the flags. */
  class MenuBuilder {
    var choices: seq<string>
    var useLetters: bool
    var allowTypedInput: bool
    var useCancel: bool

    constructor()
      ensures choices == [] && !useLetters && allowTypedInput && !useCancel
    {
      choices := [];
      useLetters := false;
      allowTypedInput := true;
      useCancel := false;
    }

    /** `set(name, action)` / `choice(name, action)`: appended at the end. */
    method Choice(name: string)
      modifies this
      ensures choices == old(choices) + [name]
      ensures useLetters == old(useLetters) && allowTypedInput == old(allowTypedInput)
      ensures useCancel == old(useCancel)
    {
      choices := choices + [name];
    }

    method ClearChoices()
      modifies this
      ensures choices == []
      ensures useLetters == old(useLetters) && allowTypedInput == old(allowTypedInput)
      ensures useCancel == old(useCancel)
    {
      choices := [];
    }

    method UseLetters(v: bool)
      modifies this
      ensures useLetters == v
      ensures choices == old(choices) && allowTypedInput == old(allowTypedInput)
      ensures useCancel == old(useCancel)
    {
      useLetters := v;
    }
  }
}
