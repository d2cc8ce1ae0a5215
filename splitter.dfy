/**
 * Splitting a reply into Discord messages of at most 2000 characters
 * (`processMessage` of the main bot's CommandEvent and of the rewrite's
 * CommandContext), the mass-mention filter that runs first, and how many
 * of the parts each `sendMessage`/`replyMessage` sends.
 */
module Splitter {
  import opened Util

  /** Discord's limit on the length of one message. */
  const MAX_LENGTH: nat := 2000

  /** `maxMessages` of the main bot and `MAX_MESSAGES` of the rewrite. */
  const MAX_MESSAGES_MAIN: nat := 3
  const MAX_MESSAGES_REWRITE: nat := 2

  /** The replacements: the `e` becomes CYRILLIC SMALL LETTER IE (U+0435). */
  const EVERYONE_SAFE: string := "@\U{0435}veryone"
  const HERE_SAFE: string := "@h\U{0435}re"

  /** The two `IllegalStateException` messages of the rewrite's sending code. */
  const CANNOT_TALK: string := "IllegalStateException: Cannot send a message to a TextChannel without being able to talk in it!"
  const NO_FINAL_PART: string := "IllegalStateException: Somehow iterated through all message parts without returning final RestDeferred?!"

  function Min(a: int, b: int): int { if a <= b then a else b }

  // ------------------------------------------------------- mass mentions

  /** Java's `String.replace(target, replacement)`: every match, left to right. */
  function ReplaceAll(s: string, p: string, q: string): string
    requires |p| > 0
    decreases |s|
  {
    if |s| < |p| then s
    else if s[..|p|] == p then q + ReplaceAll(s[|p|..], p, q)
    else [s[0]] + ReplaceAll(s[1..], p, q)
  }

  /** `filterMassMention`: defuse `@everyone` and `@here`, then trim. */
  function FilterMassMention(s: string): string
  {
    KotlinTrim(ReplaceAll(ReplaceAll(s, "@everyone", EVERYONE_SAFE), "@here", HERE_SAFE))
  }

  /** No `@` in `r` is followed by `w`. */
  ghost predicate NoAt(r: string, w: string)
  {
    forall i :: 0 <= i < |r| && r[i] == '@' ==> !StartsWith(r[i + 1..], w)
  }

  /** The text pings neither everyone nor the online members. */
  ghost predicate MentionFree(m: string)
  {
    !Contains(m, "@everyone") && !Contains(m, "@here")
  }

  lemma NoAtIffNoMention(r: string, w: string)
    ensures NoAt(r, w) <==> !Contains(r, "@" + w)
  {
    if !NoAt(r, w) {
      var i :| 0 <= i < |r| && r[i] == '@' && StartsWith(r[i + 1..], w);
      MentionAt(r, w, i);
    }
    if Contains(r, "@" + w) {
      var i: nat :| i <= |r| && OccursAt(r, "@" + w, i);
      AtOfMention(r, w, i);
    }
  }

  /** An `@` followed by `w` is an occurrence of `@w`. */
  lemma MentionAt(r: string, w: string, i: nat)
    requires i < |r| && r[i] == '@' && StartsWith(r[i + 1..], w)
    ensures OccursAt(r, "@" + w, i)
  {
    var p := "@" + w;
    assert r[i + 1..][..|w|] == r[i + 1..i + 1 + |w|];
    assert r[i..i + |p|] == [r[i]] + r[i + 1..i + 1 + |w|];
  }

  /** An occurrence of `@w` is an `@` followed by `w`. */
  lemma AtOfMention(r: string, w: string, i: nat)
    requires OccursAt(r, "@" + w, i)
    ensures i < |r| && r[i] == '@' && StartsWith(r[i + 1..], w)
  {
    var p := "@" + w;
    assert r[i] == r[i..i + |p|][0] == p[0];
    assert r[i + 1..][..|w|] == r[i..i + |p|][1..];
  }

  lemma NoAtSlice(s: string, a: nat, b: nat, w: string)
    requires a <= b <= |s| && NoAt(s, w)
    ensures NoAt(s[a..b], w)
  {
    var t := s[a..b];
    forall i | 0 <= i < |t| && t[i] == '@'
      ensures !StartsWith(t[i + 1..], w)
    {
      assert s[a + i] == '@';
      assert t[i + 1..] == s[a + i + 1..b];
      assert |t[i + 1..]| >= |w| ==> t[i + 1..][..|w|] == s[a + i + 1..][..|w|];
    }
  }

  /** Replacing with a text that starts with `@` cannot make `w` begin the text. */
  lemma {:induction false} NoPrefixTransfer(t: string, p: string, q: string, w: string)
    requires |p| > 0 && |q| > 0 && q[0] == '@' && |w| > 0 && '@' !in w
    requires !StartsWith(t, w)
    ensures !StartsWith(ReplaceAll(t, p, q), w)
    decreases |t|
  {
    if |t| < |p| {
    } else if t[..|p|] == p {
      assert ReplaceAll(t, p, q)[0] == '@';
      assert w[0] in w;
    } else {
      var rest := ReplaceAll(t[1..], p, q);
      assert ReplaceAll(t, p, q) == [t[0]] + rest;
      if t[0] == w[0] && |w| > 1 {
        TailNoPrefix(t, w);
        assert forall c :: c in w[1..] ==> c in w;
        NoPrefixTransfer(t[1..], p, q, w[1..]);
        ConsNoPrefix(t[0], rest, w);
      }
    }
  }

  /** A text that does not start with `w` but shares its first letter does not continue with the rest of `w`. */
  lemma TailNoPrefix(t: string, w: string)
    requires |t| > 0 && |w| > 1 && t[0] == w[0] && !StartsWith(t, w)
    ensures !StartsWith(t[1..], w[1..])
  {
    assert |t| >= |w| ==> t[..|w|] == [t[0]] + t[1..][..|w| - 1];
  }

  /** A letter put before a text that does not start with the rest of `w` does not start `w`. */
  lemma ConsNoPrefix(c: char, rest: string, w: string)
    requires |w| > 1 && !StartsWith(rest, w[1..])
    ensures !StartsWith([c] + rest, w)
  {
    assert |rest| + 1 >= |w| ==> ([c] + rest)[..|w|] == [c] + rest[..|w| - 1];
  }

  /**
   * Replacing `p` by `q` leaves no `@` followed by `w` when `p` is `@w`
   * itself, or when there was none before; `q` is an `@` whose tail
   * differs from `w` at position `k` and holds no other `@`.
   */
  lemma {:induction false} ReplaceLeavesNoAt(s: string, p: string, q: string, w: string, k: nat)
    requires |p| > 0 && |q| > 1 && q[0] == '@' && '@' !in q[1..]
    requires |w| > 0 && '@' !in w && k + 1 < |q| && k < |w| && q[k + 1] != w[k]
    requires p == "@" + w || NoAt(s, w)
    ensures NoAt(ReplaceAll(s, p, q), w)
    decreases |s|
  {
    var r := ReplaceAll(s, p, q);
    if |s| < |p| {
    } else if s[..|p|] == p {
      var tail := s[|p|..];
      if p != "@" + w {
        NoAtSlice(s, |p|, |s|, w);
      }
      ReplaceLeavesNoAt(tail, p, q, w, k);
      var rest := ReplaceAll(tail, p, q);
      assert r == q + rest;
      assert forall j :: 0 < j < |q| ==> r[j] == q[1..][j - 1];
      forall i | 0 <= i < |r| && r[i] == '@'
        ensures !StartsWith(r[i + 1..], w)
      {
        if i == 0 {
          assert r[1..][k] == q[k + 1];
        } else if i >= |q| {
          assert r[i] == rest[i - |q|];
          assert r[i + 1..] == rest[i - |q| + 1..];
        }
      }
    } else {
      var tail := s[1..];
      if p != "@" + w {
        NoAtSlice(s, 1, |s|, w);
      }
      ReplaceLeavesNoAt(tail, p, q, w, k);
      var rest := ReplaceAll(tail, p, q);
      assert r == [s[0]] + rest;
      forall i | 0 <= i < |r| && r[i] == '@'
        ensures !StartsWith(r[i + 1..], w)
      {
        if i == 0 {
          assert !StartsWith(tail, w) by {
            if p == "@" + w {
              assert s[..|p|] == [s[0]] + tail[..|w|];
            } else {
              assert s[0] == '@' && s[1..] == tail;
            }
          }
          NoPrefixTransfer(tail, p, q, w);
          assert r[1..] == rest;
        } else {
          assert r[i] == rest[i - 1];
          assert r[i + 1..] == rest[i..];
        }
      }
    }
  }

  lemma SafeTextsHoldNoAt()
    ensures |EVERYONE_SAFE| == 9 && EVERYONE_SAFE[0] == '@' && '@' !in EVERYONE_SAFE[1..]
    ensures EVERYONE_SAFE[1] != 'e'
    ensures |HERE_SAFE| == 5 && HERE_SAFE[0] == '@' && '@' !in HERE_SAFE[1..]
    ensures HERE_SAFE[1] != 'e' && HERE_SAFE[2] != 'e'
  {
    assert EVERYONE_SAFE[1..] == "\U{0435}veryone";
    assert HERE_SAFE[1..] == "h\U{0435}re";
  }

  lemma MentionFreeIff(m: string)
    ensures MentionFree(m) <==> NoAt(m, "everyone") && NoAt(m, "here")
  {
    NoAtIffNoMention(m, "everyone");
    NoAtIffNoMention(m, "here");
    assert "@" + "everyone" == "@everyone";
    assert "@" + "here" == "@here";
  }

  /** `trim` keeps a slice of the text, so it cannot create an `@w`. */
  lemma TrimKeepsNoAt(s: string, w: string)
    requires NoAt(s, w)
    ensures NoAt(KotlinTrim(s), w)
  {
    var t := KotlinTrim(s);
    var a := TrimStartIndex(s, KotlinSpace);
    assert a + |t| <= |s| && t == s[a..a + |t|];
    NoAtSlice(s, a, a + |t|, w);
  }

  /** Nothing `filterMassMention` returns pings everyone or the online members. */
  lemma FilterIsMentionFree(s: string)
    ensures MentionFree(FilterMassMention(s))
  {
    SafeTextsHoldNoAt();
    var s1 := ReplaceAll(s, "@everyone", EVERYONE_SAFE);
    var s2 := ReplaceAll(s1, "@here", HERE_SAFE);
    assert "@everyone" == "@" + "everyone";
    assert "@here" == "@" + "here";
    ReplaceLeavesNoAt(s, "@everyone", EVERYONE_SAFE, "everyone", 0);
    ReplaceLeavesNoAt(s1, "@here", HERE_SAFE, "everyone", 0);
    ReplaceLeavesNoAt(s1, "@here", HERE_SAFE, "here", 1);
    TrimKeepsNoAt(s2, "everyone");
    TrimKeepsNoAt(s2, "here");
    MentionFreeIff(KotlinTrim(s2));
  }

  // ----------------------------------------------------------- splitting

  /** `lastIndexOf(c, from)`: the last index at or before `from` holding `c`, or -1. */
  function LastIndexOfChar(s: string, c: char, from: int): (r: int)
    decreases if from < 0 then 0 else from + 1
    ensures -1 <= r < |s| && (r >= 0 ==> r <= from)
    ensures r >= 0 ==> s[r] == c
    ensures forall k :: 0 <= k < |s| && r < k <= from ==> s[k] != c
  {
    if from < 0 then -1
    else if from >= |s| then LastIndexOfChar(s, c, |s| - 1)
    else if s[from] == c then from
    else LastIndexOfChar(s, c, from - 1)
  }

  /** The characters of `s` that Kotlin's `trim` would keep, in order. */
  function NonSpace(s: string): string
  {
    if s == [] then []
    else NonSpace(s[..|s| - 1]) + (if KotlinSpace(s[|s| - 1]) then [] else [s[|s| - 1]])
  }

  lemma {:induction false} NonSpaceConcat(a: string, b: string)
    ensures NonSpace(a + b) == NonSpace(a) + NonSpace(b)
    decreases |b|
  {
    if b != [] {
      var b' := b[..|b| - 1];
      assert (a + b)[..|a + b| - 1] == a + b';
      NonSpaceConcat(a, b');
    } else {
      assert a + b == a;
    }
  }

  lemma {:induction false} NonSpaceOfSpaces(s: string)
    requires forall k :: 0 <= k < |s| ==> KotlinSpace(s[k])
    ensures NonSpace(s) == []
    decreases |s|
  {
    if s != [] {
      NonSpaceOfSpaces(s[..|s| - 1]);
    }
  }

  /** `trim` drops only whitespace. */
  lemma NonSpaceOfTrim(s: string)
    ensures NonSpace(KotlinTrim(s)) == NonSpace(s)
  {
    var t := KotlinTrim(s);
    var a := TrimStartIndex(s, KotlinSpace);
    assert s == s[..a] + t + s[a + |t|..];
    NonSpaceOfSpaces(s[..a]);
    NonSpaceOfSpaces(s[a + |t|..]);
    NonSpaceConcat(s[..a], t);
    NonSpaceConcat(s[..a] + t, s[a + |t|..]);
  }

  function Concat(parts: seq<string>): string
  {
    if parts == [] then [] else Concat(parts[..|parts| - 1]) + parts[|parts| - 1]
  }

  lemma ConcatSnoc(parts: seq<string>, m: string)
    ensures Concat(parts + [m]) == Concat(parts) + m
  {
    assert (parts + [m])[..|parts|] == parts;
  }

  /** No whitespace at either end, as `trim` leaves a text. */
  predicate Trimmed(s: string)
  {
    s == [] || (!KotlinSpace(s[0]) && !KotlinSpace(s[|s| - 1]))
  }

  /** The split point of one pass: the last newline, else the last space, else 2000. */
  function SplitIndex(toSend: string): (index: int)
    requires |toSend| > MAX_LENGTH
    ensures 1 <= index <= MAX_LENGTH
  {
    var leeway := MAX_LENGTH - |toSend| % MAX_LENGTH;
    var nl := LastIndexOfChar(toSend, '\n', MAX_LENGTH);
    var sp := LastIndexOfChar(toSend, ' ', MAX_LENGTH);
    if nl >= leeway then nl else if sp >= leeway then sp else MAX_LENGTH
  }

  lemma TrimmedOfTrim(s: string)
    ensures Trimmed(KotlinTrim(s))
  {
  }

  /** The part one pass of the loop cuts off, trimmed. */
  function Head(x: string): string
    requires |x| > MAX_LENGTH
  {
    KotlinTrim(x[..SplitIndex(x)])
  }

  /** What one pass of the loop leaves to split, trimmed. */
  function Tail(x: string): string
    requires |x| > MAX_LENGTH
  {
    KotlinTrim(x[SplitIndex(x)..])
  }

  /** `if (temp.isNotEmpty()) msgs.add(temp)`. */
  function AddPart(msgs: seq<string>, part: string): seq<string>
  {
    if part == [] then msgs else msgs + [part]
  }

  /** Only whitespace is gone from `text` in the parts so far and the rest. */
  ghost predicate Keeps(text: string, msgs: seq<string>, toSend: string)
  {
    NonSpace(text) == NonSpace(Concat(msgs)) + NonSpace(toSend)
  }

  /** Every part fits, is trimmed and, when the text was, mention free. */
  ghost predicate PartsOk(msgs: seq<string>, free: bool)
  {
    forall i :: 0 <= i < |msgs| ==>
      1 <= |msgs[i]| <= MAX_LENGTH && Trimmed(msgs[i]) && (free ==> MentionFree(msgs[i]))
  }

  /** One pass of the loop cuts off a part that fits and leaves less to split. */
  lemma SplitSizes(x: string)
    requires |x| > MAX_LENGTH
    ensures |Head(x)| <= MAX_LENGTH && Trimmed(Head(x))
    ensures |Tail(x)| < |x| && Trimmed(Tail(x))
  {
    TrimmedOfTrim(x[..SplitIndex(x)]);
    TrimmedOfTrim(x[SplitIndex(x)..]);
  }

  /** One pass of the loop drops whitespace only. */
  lemma SplitNonSpace(x: string)
    requires |x| > MAX_LENGTH
    ensures NonSpace(x) == NonSpace(Head(x)) + NonSpace(Tail(x))
  {
    var index := SplitIndex(x);
    var head, rest := x[..index], x[index..];
    assert x == head + rest;
    NonSpaceConcat(head, rest);
    NonSpaceOfTrim(head);
    NonSpaceOfTrim(rest);
  }

  /** Both pieces of one pass are slices of a slice, so no mention appears. */
  lemma SplitNoAt(x: string, w: string)
    requires |x| > MAX_LENGTH && NoAt(x, w)
    ensures NoAt(Head(x), w) && NoAt(Tail(x), w)
  {
    var index := SplitIndex(x);
    NoAtSlice(x, 0, index, w);
    TrimKeepsNoAt(x[..index], w);
    NoAtSlice(x, index, |x|, w);
    TrimKeepsNoAt(x[index..], w);
  }

  lemma AddPartNonSpace(msgs: seq<string>, part: string)
    ensures NonSpace(Concat(AddPart(msgs, part))) == NonSpace(Concat(msgs)) + NonSpace(part)
  {
    if part != [] {
      ConcatSnoc(msgs, part);
      NonSpaceConcat(Concat(msgs), part);
    } else {
      assert NonSpace(Concat(msgs)) + NonSpace(part) == NonSpace(Concat(msgs));
    }
  }

  lemma AddPartOk(msgs: seq<string>, part: string, free: bool)
    requires PartsOk(msgs, free) && |part| <= MAX_LENGTH && Trimmed(part)
    requires free ==> NoAt(part, "everyone") && NoAt(part, "here")
    ensures PartsOk(AddPart(msgs, part), free)
  {
    MentionFreeIff(part);
  }

  /** A pass keeps the invariant of the loop. */
  lemma LoopStep(text: string, msgs: seq<string>, toSend: string, free: bool)
    requires |toSend| > MAX_LENGTH && PartsOk(msgs, free) && Keeps(text, msgs, toSend)
    requires free ==> NoAt(toSend, "everyone") && NoAt(toSend, "here")
    ensures PartsOk(AddPart(msgs, Head(toSend)), free)
    ensures |Tail(toSend)| < |toSend| && Trimmed(Tail(toSend))
    ensures free ==> NoAt(Tail(toSend), "everyone") && NoAt(Tail(toSend), "here")
    ensures Keeps(text, AddPart(msgs, Head(toSend)), Tail(toSend))
  {
    SplitSizes(toSend);
    SplitNonSpace(toSend);
    if free {
      SplitNoAt(toSend, "everyone");
      SplitNoAt(toSend, "here");
    }
    AddPartOk(msgs, Head(toSend), free);
    MovePart(msgs, toSend, Head(toSend), Tail(toSend));
  }

  lemma MovePart(msgs: seq<string>, x: string, h: string, t: string)
    requires NonSpace(x) == NonSpace(h) + NonSpace(t)
    ensures NonSpace(Concat(msgs)) + NonSpace(x) == NonSpace(Concat(AddPart(msgs, h))) + NonSpace(t)
  {
    AddPartNonSpace(msgs, h);
    var a, b, c := NonSpace(Concat(msgs)), NonSpace(h), NonSpace(t);
    assert a + (b + c) == (a + b) + c;
  }

  /** The last part, added after the loop. */
  lemma LastPart(text: string, msgs: seq<string>, toSend: string)
    requires Keeps(text, msgs, toSend)
    ensures NonSpace(Concat(AddPart(msgs, toSend))) == NonSpace(text)
  {
    AddPartNonSpace(msgs, toSend);
  }

  /** The split point and the two trimmed pieces of one pass of the loop. */
  method CutOnce(toSend: string) returns (temp: string, next: string)
    requires |toSend| > MAX_LENGTH
    ensures temp == Head(toSend) && next == Tail(toSend)
  {
    var leeway := MAX_LENGTH - |toSend| % MAX_LENGTH;
    var index := LastIndexOfChar(toSend, '\n', MAX_LENGTH);
    if index < leeway {
      index := LastIndexOfChar(toSend, ' ', MAX_LENGTH);
    }
    if index < leeway {
      index := MAX_LENGTH;
    }
    temp := KotlinTrim(toSend[..index]);
    next := KotlinTrim(toSend[index..]);
  }

  /**
   * The `while(toSend.length > 2000)` loop of `processMessage`, shared by
   * both versions. Every part is non-empty and fits in one message, only
   * whitespace is dropped, a text that fits is sent as it is, and a text
   * that never pinged anyone does not start to. Parts cut by the loop are
   * trimmed; the text itself is not, if it is short enough to send whole.
   */
  method SplitParts(text: string) returns (msgs: seq<string>)
    ensures forall i :: 0 <= i < |msgs| ==> 1 <= |msgs[i]| <= MAX_LENGTH
    ensures NonSpace(Concat(msgs)) == NonSpace(text)
    ensures |text| <= MAX_LENGTH ==> msgs == (if text == [] then [] else [text])
    ensures |text| > MAX_LENGTH || Trimmed(text) ==> forall i :: 0 <= i < |msgs| ==> Trimmed(msgs[i])
    ensures MentionFree(text) ==> forall i :: 0 <= i < |msgs| ==> MentionFree(msgs[i])
  {
    msgs := [];
    var toSend := text;
    ghost var entered := false;
    ghost var free := MentionFree(text);
    MentionFreeIff(text);
    assert Keeps(text, msgs, toSend);
    while |toSend| > MAX_LENGTH
      invariant PartsOk(msgs, free)
      invariant Keeps(text, msgs, toSend)
      invariant !entered ==> toSend == text && msgs == []
      invariant entered ==> |text| > MAX_LENGTH && Trimmed(toSend)
      invariant free ==> NoAt(toSend, "everyone") && NoAt(toSend, "here")
      decreases |toSend|
    {
      var temp, next := CutOnce(toSend);
      LoopStep(text, msgs, toSend, free);
      msgs := AddPart(msgs, temp);
      toSend := next;
      entered := true;
    }
    LastPart(text, msgs, toSend);
    PartsAfterLoop(msgs, toSend, free);
    if entered {
      CutPartsAfterLoop(msgs, toSend, free);
    }
    msgs := AddPart(msgs, toSend);
  }

  /** The parts `SplitParts` returns: those the loop cut, each fitting, and what it left. */
  lemma PartsAfterLoop(msgs: seq<string>, toSend: string, free: bool)
    requires |toSend| <= MAX_LENGTH && PartsOk(msgs, free)
    ensures forall i :: 0 <= i < |AddPart(msgs, toSend)| ==> 1 <= |AddPart(msgs, toSend)[i]| <= MAX_LENGTH
  {
    var r := AddPart(msgs, toSend);
    forall i | 0 <= i < |r| ensures 1 <= |r[i]| <= MAX_LENGTH {
      if i < |msgs| { assert r[i] == msgs[i]; }
    }
  }

  /** After passes that cut the text, the last part is trimmed and, for a mention free text, mention free. */
  lemma CutPartsAfterLoop(msgs: seq<string>, toSend: string, free: bool)
    requires |toSend| <= MAX_LENGTH && PartsOk(msgs, free) && Trimmed(toSend)
    requires free ==> NoAt(toSend, "everyone") && NoAt(toSend, "here")
    ensures forall i :: 0 <= i < |AddPart(msgs, toSend)| ==> Trimmed(AddPart(msgs, toSend)[i])
    ensures free ==> forall i :: 0 <= i < |AddPart(msgs, toSend)| ==> MentionFree(AddPart(msgs, toSend)[i])
  {
    AddPartOk(msgs, toSend, free);
  }

  /**
   * The main bot's `processMessage`: the filtered, trimmed input split
   * into parts; no part pings everyone or the online members.
   */
  method ProcessMessage(input: string) returns (msgs: seq<string>)
    ensures forall i :: 0 <= i < |msgs| ==> 1 <= |msgs[i]| <= MAX_LENGTH
    ensures forall i :: 0 <= i < |msgs| ==> Trimmed(msgs[i]) && MentionFree(msgs[i])
    ensures NonSpace(Concat(msgs)) == NonSpace(FilterMassMention(input))
    ensures |FilterMassMention(input)| <= MAX_LENGTH ==>
      msgs == (if FilterMassMention(input) == [] then [] else [FilterMassMention(input)])
  {
    var toSend := FilterMassMention(input);
    FilterIsMentionFree(input);
    assert Trimmed(toSend);
    msgs := SplitParts(toSend);
  }

  /**
   * The rewrite's `processMessage`: its `filterMassMentions` is not part
   * of this model, so the filtered text is the input here. It is not
   * trimmed first, so a short text goes out as it is, blanks included.
   */
  method ProcessMessageRewrite(filtered: string) returns (msgs: seq<string>)
    ensures forall i :: 0 <= i < |msgs| ==> 1 <= |msgs[i]| <= MAX_LENGTH
    ensures NonSpace(Concat(msgs)) == NonSpace(filtered)
    ensures |filtered| <= MAX_LENGTH ==> msgs == (if filtered == [] then [] else [filtered])
    ensures |filtered| > MAX_LENGTH ==> forall i :: 0 <= i < |msgs| ==> Trimmed(msgs[i])
    ensures MentionFree(filtered) ==> forall i :: 0 <= i < |msgs| ==> MentionFree(msgs[i])
  {
    msgs := SplitParts(filtered);
  }

  // ------------------------------------------------------------- sending

  /**
   * The main bot's `sendMessage(String, channel)`: nothing in a text
   * channel the bot cannot talk in, else the first parts up to
   * `maxMessages`.
   */
  method SendMessageMain(parts: seq<string>, isTextChannel: bool, canTalk: bool) returns (sent: seq<string>)
    ensures isTextChannel && !canTalk ==> sent == []
    ensures !(isTextChannel && !canTalk) ==> sent == parts[..Min(|parts|, MAX_MESSAGES_MAIN)]
  {
    sent := [];
    if isTextChannel && !canTalk {
      return;
    }
    if |parts| == 1 {
      sent := [parts[0]];
      return;
    }
    var i := 0;
    while i < |parts|
      invariant 0 <= i <= |parts| && i < MAX_MESSAGES_MAIN
      invariant sent == parts[..i]
    {
      sent := sent + [parts[i]];
      if i == MAX_MESSAGES_MAIN - 1 {
        assert sent == parts[..i + 1];
        break;
      }
      i := i + 1;
    }
  }

  /** `checkForTalking`: `requireState` fails in a text channel the bot cannot talk in. */
  function CheckForTalking(isTextChannel: bool, canTalk: bool): (r: Result<bool>)
    ensures r.Err? <==> isTextChannel && !canTalk
  {
    if !isTextChannel || canTalk then Ok(true)
    else Err(CANNOT_TALK)
  }

  /**
   * The rewrite's `send(text)`: the first parts up to `MAX_MESSAGES`; the
   * loop only returns from inside, so no parts at all ends in the
   * `IllegalStateException` after it.
   */
  method SendRewrite(parts: seq<string>, isTextChannel: bool, canTalk: bool) returns (r: Result<seq<string>>)
    ensures r.Err? <==> (isTextChannel && !canTalk) || parts == []
    ensures r.Ok? ==> r.value == parts[..Min(|parts|, MAX_MESSAGES_REWRITE)]
  {
    var check := CheckForTalking(isTextChannel, canTalk);
    if check.Err? {
      return Err(check.error);
    }
    if |parts| == 1 {
      return Ok([parts[0]]);
    }
    var sent: seq<string> := [];
    var i := 0;
    while i < |parts|
      invariant 0 <= i <= |parts| && i < MAX_MESSAGES_REWRITE
      invariant sent == parts[..i]
    {
      assert parts[..i + 1] == parts[..i] + [parts[i]];
      sent := sent + [parts[i]];
      if i == |parts| - 1 || i == MAX_MESSAGES_REWRITE - 1 {
        assert Min(|parts|, MAX_MESSAGES_REWRITE) == i + 1;
        return Ok(sent);
      }
      i := i + 1;
    }
    assert parts == [];
    r := Err(NO_FINAL_PART);
  }

  /**
   * The rewrite's `reply(text)`, as written: with a single part it sends
   * the original `text` rather than the filtered part.
   */
  method ReplyMessage(text: string, parts: seq<string>) returns (sent: seq<string>)
    ensures |parts| == 1 ==> sent == [text]
    ensures |parts| != 1 ==> sent == parts[..Min(|parts|, MAX_MESSAGES_REWRITE)]
  {
    if |parts| == 1 {
      return [text];
    }
    sent := [];
    var i := 0;
    while i < |parts|
      invariant 0 <= i <= |parts| && i < MAX_MESSAGES_REWRITE
      invariant sent == parts[..i]
    {
      sent := sent + [parts[i]];
      if i == MAX_MESSAGES_REWRITE - 1 {
        assert sent == parts[..i + 1];
        break;
      }
      i := i + 1;
    }
  }

  /**
   * "@everyone" fits in one part once filtered, and that part is mention
   * free; yet `ReplyMessage` sends the unfiltered text, which pings.
   */
  lemma SingleReplyPings()
    ensures |FilterMassMention("@everyone")| <= MAX_LENGTH && FilterMassMention("@everyone") != []
    ensures MentionFree(FilterMassMention("@everyone"))
    ensures !MentionFree("@everyone")
  {
    FilterIsMentionFree("@everyone");
    assert OccursAt("@everyone", "@everyone", 0);
    var s1 := ReplaceAll("@everyone", "@everyone", EVERYONE_SAFE);
    assert s1 == EVERYONE_SAFE + ReplaceAll("", "@everyone", EVERYONE_SAFE);
    assert |s1| == 9;
    ReplaceLength(s1, "@here", HERE_SAFE);
  }

  lemma {:induction false} ReplaceLength(s: string, p: string, q: string)
    requires |p| > 0 && |q| == |p|
    ensures |ReplaceAll(s, p, q)| == |s|
    decreases |s|
  {
    if |s| < |p| {
    } else if s[..|p|] == p {
      ReplaceLength(s[|p|..], p, q);
    } else {
      ReplaceLength(s[1..], p, q);
    }
  }

  /** `reply(text)` sending the filtered part also when there is only one. */
  method ReplyMessageCorrected(parts: seq<string>) returns (sent: seq<string>)
    ensures sent == parts[..Min(|parts|, MAX_MESSAGES_REWRITE)]
  {
    sent := [];
    var i := 0;
    while i < |parts|
      invariant 0 <= i <= |parts| && i < MAX_MESSAGES_REWRITE
      invariant sent == parts[..i]
    {
      sent := sent + [parts[i]];
      if i == MAX_MESSAGES_REWRITE - 1 {
        assert sent == parts[..i + 1];
        break;
      }
      i := i + 1;
    }
  }
}
