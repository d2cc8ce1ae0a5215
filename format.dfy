/**
 * The small formatters: the "multiple ... found" listings, user names with
 * discriminators, the "could not find" template, enum nice names, track
 * times, and the `TARGET_*` argument patterns of the moderation commands.
 */
module Format {
  import opened Util
  import Searcher

  // ------------------------------------------------------------ listings

  /** Each entry followed by a newline. */
  function Lines(xs: seq<string>): string
  {
    if xs == [] then "" else Lines(xs[..|xs| - 1]) + xs[|xs| - 1] + "\n"
  }

  function Header(kind: string, argument: string): string
  {
    "Multiple " + kind + "s found matching \"" + argument + "\":\n"
  }

  /** `"And n other kind..."`, with the plural for more than one. */
  function Overflow(kind: string, extra: nat): string
  {
    "And " + NatToString(extra) + " other " + kind + (if extra > 1 then "s..." else "...")
  }

  function MinNat(a: nat, b: nat): nat { if a <= b then a else b }

  /**
   * What a listing of a non-empty list reads: the header, the first four
   * entries (or all of them), and, past four, a line counting the rest in
   * terms of `overflowKind`.
   */
  function Listing(kind: string, overflowKind: string, argument: string, entries: seq<string>): string
    requires entries != []
  {
    Header(kind, argument) + Lines(entries[..MinNat(|entries|, 4)])
    + (if |entries| > 4 then Overflow(overflowKind, |entries| - 4) else "")
  }

  /**
   * `listOut` (`overflowKind == kind`) and the `multiple*Found` helpers:
   * `for(i in 0..3)`, appending entry `i`, the overflow line after the
   * fourth, and breaking after the last entry. An empty list fails at
   * `list[0]`.
   */
  method ListOut(kind: string, overflowKind: string, argument: string, entries: seq<string>) returns (r: Result<string>)
    ensures r.Err? <==> entries == []
    ensures r.Ok? ==> r.value == Listing(kind, overflowKind, argument, entries)
  {
    if entries == [] {
      return Err("IndexOutOfBoundsException");
    }
    var sb := Header(kind, argument);
    var i := 0;
    ghost var complete := false;
    while i <= 3
      invariant 0 <= i <= 4 && i <= |entries|
      invariant i < 4 ==> i < |entries|
      invariant i == 4 ==> |entries| > 4
      invariant !complete
      invariant ListedSoFar(kind, overflowKind, argument, entries, i, sb)
    {
      ListedStep(kind, overflowKind, argument, entries, i, sb);
      sb := sb + entries[i] + "\n";
      if i == 3 && |entries| > 4 {
        sb := sb + Overflow(overflowKind, |entries| - 4);
      }
      if |entries| == i + 1 {
        complete := true;
        break;
      }
      i := i + 1;
    }
    if !complete {
      ListedFour(kind, overflowKind, argument, entries, sb);
    }
    return Ok(sb);
  }

  /** After four rounds without a break the listing is complete. */
  lemma ListedFour(kind: string, overflowKind: string, argument: string, entries: seq<string>, sb: string)
    requires 4 <= |entries| && ListedSoFar(kind, overflowKind, argument, entries, 4, sb)
    requires |entries| > 4
    ensures sb == Listing(kind, overflowKind, argument, entries)
  {
  }

  /** The text `ListOut` holds after its first `i` rounds. */
  predicate ListedSoFar(kind: string, overflowKind: string, argument: string, entries: seq<string>, i: nat, sb: string)
    requires i <= |entries|
  {
    sb == Header(kind, argument) + Lines(entries[..i])
          + (if i == 4 && |entries| > 4 then Overflow(overflowKind, |entries| - 4) else "")
  }

  /** Round `i` of `ListOut` appends entry `i`, and completes the listing when it was the last. */
  lemma ListedStep(kind: string, overflowKind: string, argument: string, entries: seq<string>, i: nat, sb: string)
    requires i <= 3 && i < |entries|
    requires ListedSoFar(kind, overflowKind, argument, entries, i, sb)
    ensures var next := if i == 3 && |entries| > 4 then sb + entries[i] + "\n" + Overflow(overflowKind, |entries| - 4)
                        else sb + entries[i] + "\n";
      ListedSoFar(kind, overflowKind, argument, entries, i + 1, next)
      && (|entries| == i + 1 ==> next == Listing(kind, overflowKind, argument, entries))
  {
    var h, l, e := Header(kind, argument), Lines(entries[..i]), entries[i] + "\n";
    assert entries[..i + 1][..i] == entries[..i];
    assert Lines(entries[..i + 1]) == l + entries[i] + "\n";
    assert sb == h + l;
    assert sb + entries[i] + "\n" == h + Lines(entries[..i + 1]);
    if |entries| == i + 1 {
      assert entries[..|entries|] == entries;
    }
  }

  /** Up to four entries, every one is listed and nothing else follows. */
  lemma ListingOfShort(kind: string, overflowKind: string, argument: string, entries: seq<string>)
    requires 0 < |entries| <= 4
    ensures Listing(kind, overflowKind, argument, entries) == Header(kind, argument) + Lines(entries)
  {
    assert entries[..|entries|] == entries;
  }

  /** A listing shows only the first four entries: the rest count but are never shown. */
  lemma ListingSeesFirstFour(kind: string, overflowKind: string, argument: string, a: seq<string>, b: seq<string>)
    requires a != [] && |a| == |b| && a[..MinNat(|a|, 4)] == b[..MinNat(|b|, 4)]
    ensures Listing(kind, overflowKind, argument, a) == Listing(kind, overflowKind, argument, b)
  {
  }

  /** The five listings of the `me.kgustave` tree. */
  datatype Found = Users | Members | TextChannels | VoiceChannels | Roles

  function KindName(f: Found): string
  {
    match f
    case Users => "user"
    case Members => "member"
    case TextChannels => "text channel"
    case VoiceChannels => "voice channel"
    case Roles => "role"
  }

  /** The word each `multiple*Found` puts in its overflow line, as written. */
  function OverflowKindAsWritten(f: Found): string
  {
    match f
    case Users => "user"
    case _ => "member"
  }

  /** Past four channels or roles, the overflow line as written counts "members". */
  lemma ChannelsAndRolesOverflowAsMembers(f: Found, argument: string, entries: seq<string>)
    requires f != Users && f != Members && |entries| == 5
    ensures Listing(KindName(f), OverflowKindAsWritten(f), argument, entries)
         == Header(KindName(f), argument) + Lines(entries[..4]) + "And 1 other member..."
    ensures OverflowKindAsWritten(f) != KindName(f)
  {
    assert NatToString(1) == "1";
    assert Overflow("member", 1) == "And 1 other member...";
  }

  /** Corrected: every listing counts the overflow in its own kind, as the main tree's `listOut` does. */
  function MultipleFound(f: Found, argument: string, entries: seq<string>): string
    requires entries != []
  {
    Listing(KindName(f), KindName(f), argument, entries)
  }

  lemma MultipleFoundNamesKind(f: Found, argument: string, entries: seq<string>)
    requires |entries| > 4
    ensures EndsWith(MultipleFound(f, argument, entries),
                     " other " + KindName(f) + (if |entries| - 4 > 1 then "s..." else "..."))
  {
    ListingEndsWithOverflow(KindName(f), argument, entries);
  }

  /** Past four entries a listing ends with its overflow line's kind. */
  lemma ListingEndsWithOverflow(kind: string, argument: string, entries: seq<string>)
    requires |entries| > 4
    ensures EndsWith(Listing(kind, kind, argument, entries),
                     " other " + kind + (if |entries| - 4 > 1 then "s..." else "..."))
  {
    var n := |entries| - 4;
    var tail := " other " + kind + (if n > 1 then "s..." else "...");
    var lead := "And " + NatToString(n);
    assert Overflow(kind, n) == lead + tail;
    EndsWithAppended(lead, tail);
    EndsWithExtended(Header(kind, argument) + Lines(entries[..4]), Overflow(kind, n), tail);
  }

  lemma EndsWithAppended(a: string, b: string)
    ensures EndsWith(a + b, b)
  {
    assert (a + b)[|a|..] == b;
  }

  lemma EndsWithExtended(a: string, b: string, t: string)
    requires EndsWith(b, t)
    ensures EndsWith(a + b, t)
  {
    assert (a + b)[|a + b| - |t|..] == b[|b| - |t|..];
  }

  // --------------------------------------------------------------- names

  /** `formattedName(bold)` / `formatUserName(user, bold)`. */
  function FormattedName(name: string, discriminator: string, bold: bool): string
  {
    (if bold then "**" + name + "**" else name) + "#" + discriminator
  }

  /**
   * The plain form reads back through the searcher's `name#1234` split:
   * the formatter and the search agree on what a user tag is.
   */
  lemma FormattedNameSplits(name: string, discriminator: string)
    requires |discriminator| == 4 && AllDigits(discriminator)
    requires forall k :: 0 <= k < |name| ==> !Searcher.LineTerminator(name[k])
    ensures Searcher.SplitDiscriminator(FormattedName(name, discriminator, false))
         == Some(Searcher.NameTag(JavaTrim(name), discriminator))
  {
    Searcher.SplitDiscriminatorOf(name, discriminator);
  }

  /** With four-digit discriminators, different users never show the same tag. */
  lemma FormattedNameInjective(n1: string, d1: string, n2: string, d2: string, bold: bool)
    requires |d1| == 4 && |d2| == 4
    ensures FormattedName(n1, d1, bold) == FormattedName(n2, d2, bold) <==> n1 == n2 && d1 == d2
  {
    var s1, s2 := FormattedName(n1, d1, bold), FormattedName(n2, d2, bold);
    if s1 == s2 {
      assert d1 == s1[|s1| - 4..] && d2 == s2[|s2| - 4..];
      var p1 := if bold then "**" + n1 + "**" else n1;
      var p2 := if bold then "**" + n2 + "**" else n2;
      assert p1 == s1[..|s1| - 5] && p2 == s2[..|s2| - 5];
      if bold {
        assert n1 == p1[2..|p1| - 2] && n2 == p2[2..|p2| - 2];
      }
    }
  }

  /** `noMatch(lookedFor, query)`. */
  function NoMatch(lookedFor: string, query: string): string
  {
    "Could not find any " + lookedFor + " matching \"" + query + "\"!"
  }

  /** The query can be read back from the message. */
  lemma NoMatchQuotesQuery(lookedFor: string, query: string)
    ensures var m := NoMatch(lookedFor, query);
      var start := |"Could not find any " + lookedFor + " matching \""|;
      start + 2 <= |m| && m[start..|m| - 2] == query && m[|m| - 2..] == "\"!"
  {
  }

  // ----------------------------------------------------------- niceName

  /** `replace("_", " ")`. */
  function UnderscoresToSpaces(s: string): (r: string)
    ensures |r| == |s|
    ensures forall i :: 0 <= i < |s| ==> r[i] == if s[i] == '_' then ' ' else s[i]
  {
    if s == [] then [] else UnderscoresToSpaces(s[..|s| - 1]) + [if s[|s| - 1] == '_' then ' ' else s[|s| - 1]]
  }

  /** The main tree's `niceName`: the first character kept, the rest lower-cased. */
  function NiceName(name: string): string
    requires name != []
  {
    var t := UnderscoresToSpaces(name);
    [t[0]] + Lower(t[1..])
  }

  /** The rewrite's `niceName`: one character upper-cased; else the first upper-cased, the rest lower-cased. */
  function NiceNameRewrite(name: string): string
  {
    var t := UnderscoresToSpaces(name);
    if |t| < 2 then Upper(t) else [UpperChar(t[0])] + Lower(t[1..])
  }

  /** A nice name has no underscores, the length of the name, and is lower case after its first character. */
  lemma NiceNameShape(name: string)
    requires name != []
    ensures |NiceName(name)| == |name|
    ensures forall i :: 0 <= i < |name| ==> NiceName(name)[i] != '_'
    ensures Lower(NiceName(name)[1..]) == NiceName(name)[1..]
    ensures NiceName(name)[0] == if name[0] == '_' then ' ' else name[0]
  {
    var t := UnderscoresToSpaces(name);
    LowerIdempotent(t[1..]);
    assert NiceName(name)[1..] == Lower(t[1..]);
  }

  /** Nice names are fixed points: applying `niceName` again changes nothing. */
  lemma NiceNameIdempotent(name: string)
    requires name != []
    ensures NiceName(NiceName(name)) == NiceName(name)
  {
    var n := NiceName(name);
    NiceNameShape(name);
    var t := UnderscoresToSpaces(n);
    assert t == n;
    LowerIdempotent(UnderscoresToSpaces(name)[1..]);
  }

  /** The two trees agree on every name whose first character is not a lower-case letter. */
  lemma NiceNamesAgree(name: string)
    requires name != [] && !('a' <= name[0] <= 'z')
    ensures NiceNameRewrite(name) == NiceName(name)
  {
    var t := UnderscoresToSpaces(name);
    assert UpperChar(t[0]) == t[0];
  }

  // --------------------------------------------------------- track time

  /** Kotlin's `/` on `Long`, truncating toward zero, for a positive divisor. */
  function TruncDiv(a: int, b: int): int
    requires b > 0
  {
    if a >= 0 then a / b else -((-a) / b)
  }

  /** Kotlin's `%` on `Long`: the remainder takes the sign of the dividend. */
  function TruncRem(a: int, b: int): int
    requires b > 0
  {
    a - b * TruncDiv(a, b)
  }

  /** `Math.round(duration / 1000.0)`: half-up rounding of the milliseconds to seconds. */
  function RoundSeconds(duration: int): int
  {
    (duration + 500) / 1000
  }

  /** `"0$n"` below 10, else `"$n"`. */
  function TwoDigits(n: int): string
  {
    if n < 10 then "0" + IntToString(n) else IntToString(n)
  }

  /** The clock text of a number of seconds: `h:` when there are hours, then `mm:ss`. */
  function Clock(seconds: int): string
  {
    var hours := TruncDiv(seconds, 3600);
    var rest := TruncRem(seconds, 3600);
    var minutes := TruncDiv(rest, 60);
    var secs := TruncRem(rest, 60);
    (if hours > 0 then IntToString(hours) + ":" else "") + TwoDigits(minutes) + ":" + TwoDigits(secs)
  }

  /** `formatTrackTime(duration)`. */
  function TrackTime(duration: int): string
  {
    if duration == LONG_MAX then "LIVE" else Clock(RoundSeconds(duration))
  }

  /** `formatTrackTime`, reassigning `seconds` as the source does. */
  method FormatTrackTime(duration: int) returns (r: string)
    ensures r == TrackTime(duration)
  {
    if duration == LONG_MAX {
      return "LIVE";
    }
    var seconds := (duration + 500) / 1000;
    var hours := TruncDiv(seconds, 60 * 60);
    seconds := TruncRem(seconds, 60 * 60);
    var minutes := TruncDiv(seconds, 60);
    seconds := TruncRem(seconds, 60);
    r := (if hours > 0 then IntToString(hours) + ":" else "")
         + (if minutes < 10 then "0" + IntToString(minutes) else IntToString(minutes)) + ":"
         + (if seconds < 10 then "0" + IntToString(seconds) else IntToString(seconds));
  }

  /** Below 60, two digits denoting the number. */
  lemma TwoDigitsOf(n: int)
    requires 0 <= n < 60
    ensures |TwoDigits(n)| == 2 && AllDigits(TwoDigits(n)) && DigitsValue(TwoDigits(n)) == n
  {
    if n < 10 {
      assert NatToString(n) == [DigitChar(n)];
      assert TwoDigits(n) == ['0', DigitChar(n)];
      assert TwoDigits(n)[..1] == ['0'];
    } else {
      assert NatToString(n / 10) == [DigitChar(n / 10)];
    }
  }

  /**
   * For a non-negative duration the text denotes the rounded number of
   * seconds: hours (shown only when there are any), then minutes and
   * seconds below 60 in two digits each.
   */
  lemma TrackTimeDenotes(duration: int)
    requires 0 <= duration < LONG_MAX
    ensures var total := RoundSeconds(duration);
      var h, m, s := total / 3600, total % 3600 / 60, total % 60;
      h * 3600 + m * 60 + s == total && m < 60 && s < 60
      && TrackTime(duration) == (if h > 0 then NatToString(h) + ":" else "") + TwoDigits(m) + ":" + TwoDigits(s)
      && |TwoDigits(m)| == 2 && DigitsValue(TwoDigits(m)) == m
      && |TwoDigits(s)| == 2 && DigitsValue(TwoDigits(s)) == s
  {
    var total := RoundSeconds(duration);
    ClockOfNonNegative(total);
    TwoDigitsOf(total % 3600 / 60);
    TwoDigitsOf(total % 60);
  }

  /** Kotlin's `/` and `%` agree with Dafny's on a non-negative dividend. */
  lemma TruncOfNonNegative(a: int, b: int)
    requires a >= 0 && b > 0
    ensures TruncDiv(a, b) == a / b && TruncRem(a, b) == a % b
  {
  }

  /** Hours, minutes below 60 and seconds below 60 make up the total. */
  lemma HoursMinutesSeconds(t: int)
    requires t >= 0
    ensures t % 3600 % 60 == t % 60 && t % 3600 / 60 < 60
    ensures (t / 3600) * 3600 + (t % 3600 / 60) * 60 + t % 60 == t
  {
    var q, r := t / 3600, t % 3600;
    assert t == 3600 * q + r && 0 <= r < 3600;
    var m, s := r / 60, r % 60;
    assert r == 60 * m + s && 0 <= s < 60;
    assert t == 60 * (60 * q + m) + s;
  }

  lemma ClockOfNonNegative(t: int)
    requires t >= 0
    ensures Clock(t) == (if t / 3600 > 0 then NatToString(t / 3600) + ":" else "")
                        + TwoDigits(t % 3600 / 60) + ":" + TwoDigits(t % 60)
    ensures (t / 3600) * 3600 + (t % 3600 / 60) * 60 + t % 60 == t && t % 3600 / 60 < 60 && t % 60 < 60
  {
    TruncOfNonNegative(t, 3600);
    TruncOfNonNegative(t % 3600, 60);
    HoursMinutesSeconds(t);
  }

  /** `Math.round` rounds half up: the rounded seconds are within half a second of the duration. */
  lemma RoundSecondsNearest(duration: int)
    ensures RoundSeconds(duration) * 1000 - 500 <= duration < RoundSeconds(duration) * 1000 + 500
  {
  }

  // ------------------------------------------------------ target patterns

  /** What a `TARGET_*` pattern matched: the id (group 1) and the reason (group 2, if present). */
  datatype Target = Target(id: string, reason: Option<string>)

  /**
   * How `(?:\s+(?:for\s+)?([\s\S]+))?$` matches the text after the id
   * (outer `None`: no match). The runs are greedy and give back one
   * character only when nothing would be left for `[\s\S]+`; a `for`
   * followed by a single whitespace and nothing else is taken as reason.
   */
  function ReasonGroup(rest: string): Option<Option<string>>
  {
    if rest == [] then Some(None)
    else if !RegexSpace(rest[0]) then None
    else
      var a := SpaceRunEnd(rest, 0);
      var tail := rest[a..];
      if |tail| > 3 && tail[..3] == "for" && RegexSpace(tail[3]) then
        var b := SpaceRunEnd(tail, 3);
        if b < |tail| then Some(Some(tail[b..]))
        else if b - 3 >= 2 then Some(Some(tail[b - 1..]))
        else Some(Some(tail))
      else if tail != [] then Some(Some(tail))
      else if a >= 2 then Some(Some(rest[a - 1..]))
      else None
  }

  /**
   * `TARGET_ID_REASON.matcher(s).matches()`: 17 to 20 digits, then the
   * reason part. Group 1 must take the whole run of leading digits, since
   * what follows it is empty or whitespace.
   */
  function TargetIdReason(s: string): (r: Option<Target>)
    ensures r.Some? ==> 17 <= |r.value.id| <= 20 && AllDigits(r.value.id) && StartsWith(s, r.value.id)
  {
    var n := LeadingCount(s, IsDigit);
    if 17 <= n <= 20 then
      match ReasonGroup(s[n..])
      case None => None
      case Some(g) => Some(Target(s[..n], g))
    else None
  }

  /** `TARGET_MENTION_REASON.matcher(s).matches()`: `<@`, an optional `!`, the id, `>`, the reason part. */
  function TargetMentionReason(s: string): (r: Option<Target>)
    ensures r.Some? ==> 17 <= |r.value.id| <= 20 && AllDigits(r.value.id)
  {
    if |s| >= 2 && s[..2] == "<@" then MentionedId(if |s| > 2 && s[2] == '!' then s[3..] else s[2..])
    else None
  }

  /** The mention pattern past `<@` and the optional `!`: the id, `>`, the reason part. */
  function MentionedId(body: string): (r: Option<Target>)
    ensures r.Some? ==> 17 <= |r.value.id| <= 20 && AllDigits(r.value.id)
  {
    var n := LeadingCount(body, IsDigit);
    if 17 <= n <= 20 && n < |body| && body[n] == '>' then
      match ReasonGroup(body[n + 1..])
      case None => None
      case Some(g) => Some(Target(body[..n], g))
    else None
  }

  predicate IsId(id: string)
  {
    17 <= |id| <= 20 && AllDigits(id)
  }

  /** The digits followed by anything that is not a digit are the whole leading run. */
  lemma LeadingDigits(id: string, rest: string)
    requires AllDigits(id) && (rest == [] || !IsDigit(rest[0]))
    ensures LeadingCount(id + rest, IsDigit) == |id|
    ensures (id + rest)[..|id|] == id && (id + rest)[|id|..] == rest
    decreases |id|
  {
    if id != [] {
      assert (id + rest)[1..] == id[1..] + rest;
      LeadingDigits(id[1..], rest);
    }
  }

  /** An id alone matches with no reason. */
  lemma TargetIdAlone(id: string)
    requires IsId(id)
    ensures TargetIdReason(id) == Some(Target(id, None))
  {
    LeadingDigits(id, "");
    assert id + "" == id;
  }

  /** An id, whitespace and a reason that does not start with `for` and whitespace. */
  lemma TargetIdWithReason(id: string, reason: string)
    requires IsId(id) && reason != [] && !RegexSpace(reason[0])
    requires !(|reason| > 3 && reason[..3] == "for" && RegexSpace(reason[3]))
    ensures TargetIdReason(id + " " + reason) == Some(Target(id, Some(reason)))
  {
    LeadingDigits(id, " " + reason);
    assert id + " " + reason == id + (" " + reason);
    var rest := " " + reason;
    assert SpaceRunEnd(rest, 1) == 1;
    assert rest[1..] == reason;
  }

  /** `for` and whitespace before the reason are dropped. */
  lemma TargetIdForReason(id: string, reason: string)
    requires IsId(id) && reason != [] && !RegexSpace(reason[0])
    ensures TargetIdReason(id + " for " + reason) == Some(Target(id, Some(reason)))
  {
    var rest := " for " + reason;
    LeadingDigits(id, rest);
    assert id + " for " + reason == id + rest;
    assert SpaceRunEnd(rest, 1) == 1;
    var tail := rest[1..];
    assert tail == "for " + reason;
    assert SpaceRunEnd(tail, 4) == 4;
    assert SpaceRunEnd(tail, 3) == 4;
    assert tail[4..] == reason;
  }

  /** Twenty-one digits or more never match: group 1 cannot stop inside a run of digits. */
  lemma TargetIdTooLong(s: string)
    requires LeadingCount(s, IsDigit) > 20
    ensures TargetIdReason(s) == None
  {
  }

  /** A mention of an id matches as the id itself does. */
  lemma MentionAgreesWithId(id: string, rest: string, bang: bool)
    requires IsId(id) && (rest == [] || !IsDigit(rest[0]))
    ensures TargetMentionReason((if bang then "<@!" else "<@") + id + ">" + rest)
         == TargetIdReason(id + rest)
  {
    TargetIdOf(id, rest);
    TargetMentionOf(id, rest, bang);
  }

  /** The match of an id followed by `rest`, by what the reason part makes of `rest`. */
  function WithReason(id: string, rest: string): Option<Target>
  {
    match ReasonGroup(rest)
    case None => None
    case Some(g) => Some(Target(id, g))
  }

  lemma TargetIdOf(id: string, rest: string)
    requires IsId(id) && (rest == [] || !IsDigit(rest[0]))
    ensures TargetIdReason(id + rest) == WithReason(id, rest)
  {
    LeadingDigits(id, rest);
  }

  lemma TargetMentionOf(id: string, rest: string, bang: bool)
    requires IsId(id) && (rest == [] || !IsDigit(rest[0]))
    ensures TargetMentionReason((if bang then "<@!" else "<@") + id + ">" + rest) == WithReason(id, rest)
  {
    MentionBody(id, rest, bang);
    MentionedIdOf(id, rest);
  }

  lemma MentionedIdOf(id: string, rest: string)
    requires IsId(id) && (rest == [] || !IsDigit(rest[0]))
    ensures MentionedId(id + (">" + rest)) == WithReason(id, rest)
  {
    var body := id + (">" + rest);
    LeadingDigits(id, ">" + rest);
    assert body[|id|] == '>' && body[|id| + 1..] == rest;
    MentionedIdAt(body, id, rest);
  }

  /** A body whose leading digits are the id, followed by `>`, matches by what follows the `>`. */
  lemma MentionedIdAt(body: string, id: string, rest: string)
    requires IsId(id) && LeadingCount(body, IsDigit) == |id| && |id| < |body|
    requires body[..|id|] == id && body[|id|] == '>' && body[|id| + 1..] == rest
    ensures MentionedId(body) == WithReason(id, rest)
  {
  }

  /** Past `<@` and the optional `!` comes the id. */
  lemma MentionBody(id: string, rest: string, bang: bool)
    requires IsId(id)
    ensures var s := (if bang then "<@!" else "<@") + id + ">" + rest;
      |s| >= 2 && s[..2] == "<@" && (if |s| > 2 && s[2] == '!' then s[3..] else s[2..]) == id + (">" + rest)
  {
    var s := (if bang then "<@!" else "<@") + id + ">" + rest;
    var body := id + (">" + rest);
    assert s == (if bang then "<@!" else "<@") + body;
    if !bang {
      assert s[2] == id[0];
      assert IsDigit(s[2]);
    }
  }
}
