/**
 * The moderator `clean` command of the main tree (`CleanCmd`) and of the
 * rewrite (`CleanCommand`): flag detection and removal, the message count,
 * the per-message selection rules in their order of precedence, the
 * two-weeks-minus-one-minute cutoff, the rewrite's `getPast` retrieval in
 * requests of at most 100, and deletion in chunks of 100 with a singleton
 * tail.
 *
 * The reason, quote, mention and raw-id patterns are applied before this
 * model starts: it receives the quotes and ids they collected and the
 * argument text that is left. Times are whole seconds.
 */
module Clean {
  import opened Util

  /** `MAX_RETRIEVABLE`: the most messages one request retrieves or one bulk delete takes. */
  const MAX_RETRIEVABLE: nat := 100
  const MIN_COUNT: nat := 2
  const MAX_COUNT: nat := 1000
  /** The count used when filters were given without a number. */
  const FILTERED_DEFAULT: nat := 100

  const RANGE_ERROR: string := "The number of messages to delete must be between 2 and 1000!"
  const NOT_A_NUMBER: string := "is not a valid number of messages!"

  // ------------------------------------------------------------ flags

  /** `contains(word, ignoreCase = true)` for a lower-case `word`. */
  predicate ContainsIgnoreCase(s: string, word: string)
  {
    Contains(Lower(s), word)
  }

  /**
   * `replace(word, "", ignoreCase = true)` for a lower-case, non-empty
   * `word`: occurrences are removed left to right, without rescanning.
   */
  function RemoveAll(s: string, word: string): (r: string)
    requires word != []
    ensures |r| <= |s|
    decreases |s|
  {
    if |s| < |word| then s
    else if Lower(s[..|word|]) == word then RemoveAll(s[|word|..], word)
    else [s[0]] + RemoveAll(s[1..], word)
  }

  lemma AbsentAtStart(s: string, word: string)
    requires word != [] && |s| >= |word| && !ContainsIgnoreCase(s, word)
    ensures Lower(s[..|word|]) != word
  {
    LowerOfSlice(s, 0, |word|);
    assert !OccursAt(Lower(s), word, 0);
  }

  lemma AbsentInTail(s: string, word: string)
    requires s != [] && !ContainsIgnoreCase(s, word)
    ensures !ContainsIgnoreCase(s[1..], word)
  {
    LowerOfSlice(s, 1, |s|);
    if ContainsIgnoreCase(s[1..], word) {
      var k: nat :| k <= |s[1..]| && OccursAt(Lower(s[1..]), word, k);
      assert Lower(s)[k + 1..k + 1 + |word|] == Lower(s[1..])[k..k + |word|];
      assert OccursAt(Lower(s), word, k + 1);
    }
  }

  /** Removing a word that does not occur changes nothing. */
  lemma {:induction false} RemoveAllAbsent(s: string, word: string)
    requires word != [] && !ContainsIgnoreCase(s, word)
    ensures RemoveAll(s, word) == s
    decreases |s|
  {
    if |s| >= |word| {
      AbsentAtStart(s, word);
      AbsentInTail(s, word);
      RemoveAllAbsent(s[1..], word);
      assert [s[0]] + s[1..] == s;
    }
  }

  datatype Flags = Flags(bots: bool, embeds: bool, links: bool, images: bool, files: bool)

  /** One flag step: detect `word`, and when present remove it. */
  function FlagStep(args: string, word: string): (string, bool)
    requires word != []
  {
    if ContainsIgnoreCase(args, word) then (RemoveAll(args, word), true) else (args, false)
  }

  /**
   * The flags, checked in the order bots, embeds, links, images, files, each
   * on what the previous steps left; only the bots step trims afterwards.
   */
  function ParseFlags(args: string): (r: (Flags, string))
    ensures r.0.bots <==> ContainsIgnoreCase(args, "bots")
    ensures !r.0.bots && !r.0.embeds && !r.0.links && !r.0.images && !r.0.files ==> r.1 == args
  {
    var (a1, bots) := FlagStep(args, "bots");
    var a1 := if bots then KotlinTrim(a1) else a1;
    var (a2, embeds) := FlagStep(a1, "embeds");
    var (a3, links) := FlagStep(a2, "links");
    var (a4, images) := FlagStep(a3, "images");
    var (a5, files) := FlagStep(a4, "files");
    (Flags(bots, embeds, links, images, files), a5)
  }

  /** A word that occurs nowhere in the arguments never raises its flag. */
  lemma NoFlagWordsNoFlags(args: string)
    requires !ContainsIgnoreCase(args, "bots") && !ContainsIgnoreCase(args, "embeds")
    requires !ContainsIgnoreCase(args, "links") && !ContainsIgnoreCase(args, "images")
    requires !ContainsIgnoreCase(args, "files")
    ensures ParseFlags(args) == (Flags(false, false, false, false, false), args)
  {
  }

  datatype Criteria = Criteria(quotes: set<string>, ids: set<nat>, flags: Flags)

  /** Clean-all mode: no quotes, no ids and no flags. */
  predicate CleanAll(c: Criteria)
  {
    c.quotes == {} && c.ids == {} && c.flags == Flags(false, false, false, false, false)
  }

  // ------------------------------------------------------------ the count

  /** The first digit of `s`, or `|s|`. */
  function FirstDigit(s: string): (r: nat)
    ensures r <= |s| && (r < |s| ==> IsDigit(s[r]))
    ensures forall j :: 0 <= j < r ==> !IsDigit(s[j])
  {
    if s == [] then 0 else if IsDigit(s[0]) then 0 else 1 + FirstDigit(s[1..])
  }

  /** How many digits follow position `i`, at most `cap`. */
  function DigitRun(s: string, i: nat, cap: nat): (r: nat)
    requires i <= |s|
    ensures r <= cap && i + r <= |s|
    ensures forall j :: i <= j < i + r ==> IsDigit(s[j])
    ensures r < cap ==> i + r == |s| || !IsDigit(s[i + r])
    decreases cap
  {
    if cap == 0 || i == |s| || !IsDigit(s[i]) then 0 else 1 + DigitRun(s, i + 1, cap - 1)
  }

  /** `numberPattern.findAll(s).first()`: the leftmost run of up to `width` digits, as a number. */
  function NumberArgWidth(s: string, width: nat): (r: Option<nat>)
    requires width > 0
    ensures r.None? <==> forall j :: 0 <= j < |s| ==> !IsDigit(s[j])
  {
    var i := FirstDigit(s);
    if i == |s| then None else Some(DigitsValue(s[i..i + DigitRun(s, i, width)]))
  }

  /** `(\d{1,4})`: the match is at most four digits long. */
  function NumberArg(s: string): Option<nat>
  {
    NumberArgWidth(s, 4)
  }

  /**
   * The number of messages to fetch as written: a number in 2..1000 becomes
   * one more (for the command's own message); without a number, 100 when
   * filtering, else an error.
   */
  function CleanCount(rest: string, cleanAll: bool): (r: Result<nat>)
    ensures r.Ok? ==> r.value == FILTERED_DEFAULT || MIN_COUNT + 1 <= r.value <= MAX_COUNT + 1
  {
    match NumberArg(KotlinTrim(rest))
    case Some(n) => if n < MIN_COUNT || n > MAX_COUNT then Err(RANGE_ERROR) else Ok(n + 1)
    case None => if !cleanAll then Ok(FILTERED_DEFAULT) else Err(NOT_A_NUMBER)
  }

  /** The count's error cases, both ways. */
  lemma CleanCountErrors(rest: string, cleanAll: bool)
    ensures CleanCount(rest, cleanAll).Err? <==>
              match NumberArg(KotlinTrim(rest))
              case Some(n) => n < MIN_COUNT || n > MAX_COUNT
              case None => cleanAll
    ensures NumberArg(KotlinTrim(rest)).None? && !cleanAll ==>
              CleanCount(rest, cleanAll) == Ok(FILTERED_DEFAULT)
  {
  }

  /** Five typed digits are read as their first four: `10000` cleans 1000 messages. */
  lemma FiveDigitsReadAsFour()
    ensures CleanCount("10000", true) == Ok(MAX_COUNT + 1)
  {
    assert KotlinTrim("10000") == "10000" by {
      TrimIsNoOpOnTrimmed("10000", KotlinSpace);
    }
    assert NumberArg("10000") == Some(1000) by {
      assert FirstDigit("10000") == 0;
      assert DigitRun("10000", 0, 4) == 4;
      assert "10000"[0..4] == "1000";
      ThousandValue();
    }
  }

  lemma ThousandValue()
    ensures DigitsValue("1000") == 1000
  {
    assert "1"[..0] == "";
    assert DigitsValue("1") == 1;
    assert "10"[..1] == "1";
    assert DigitsValue("10") == 10;
    assert "100"[..2] == "10";
    assert DigitsValue("100") == 100;
    assert "1000"[..3] == "100";
  }

  /** The count as evidently intended: the whole leading digit run is the number. */
  function CleanCountCorrected(rest: string, cleanAll: bool): (r: Result<nat>)
  {
    match NumberArgWidth(KotlinTrim(rest), |rest| + 1)
    case Some(n) => if n < MIN_COUNT || n > MAX_COUNT then Err(RANGE_ERROR) else Ok(n + 1)
    case None => if !cleanAll then Ok(FILTERED_DEFAULT) else Err(NOT_A_NUMBER)
  }

  /** A number of the user's is accepted only when it is in range, however many digits it has. */
  lemma CleanCountCorrectedRejectsLarge(digits: string, cleanAll: bool)
    requires digits != [] && AllDigits(digits) && KotlinTrim(digits) == digits
    ensures CleanCountCorrected(digits, cleanAll) ==
              if MIN_COUNT <= DigitsValue(digits) <= MAX_COUNT then Ok(DigitsValue(digits) + 1)
              else Err(RANGE_ERROR)
  {
    NumberArgOfDigits(digits, |digits| + 1);
  }

  lemma NumberArgOfDigits(digits: string, width: nat)
    requires digits != [] && AllDigits(digits) && |digits| < width
    ensures NumberArgWidth(digits, width) == Some(DigitsValue(digits))
  {
    assert IsDigit(digits[0]);
    assert FirstDigit(digits) == 0;
    WholeRun(digits, 0, width);
    assert digits[0..|digits|] == digits;
  }

  lemma {:induction false} WholeRun(s: string, i: nat, cap: nat)
    requires i <= |s| && AllDigits(s) && |s| - i < cap
    ensures DigitRun(s, i, cap) == |s| - i
    decreases cap
  {
    if i < |s| {
      assert IsDigit(s[i]);
      WholeRun(s, i + 1, cap - 1);
    }
  }

  // ------------------------------------------------------------ selecting messages

  /** What a message of the channel history carries that the rules look at. */
  datatype Message = Message(
    id: nat, authorId: nat, authorIsBot: bool, hasEmbeds: bool, content: string,
    hasAttachments: bool, hasImage: bool, createdAt: int)

  /** `linkPattern.containsMatchIn(content)`: `http://` or `https://` and one non-space character. */
  predicate HasLink(content: string)
  {
    exists i :: 0 <= i < |content| && (LinkAt(content, i, "http://") || LinkAt(content, i, "https://"))
  }

  predicate LinkAt(content: string, i: nat, scheme: string)
  {
    OccursAt(content, scheme, i) && i + |scheme| < |content| && !RegexSpace(content[i + |scheme|])
  }

  /** `quotes.any { content.toLowerCase().contains(it) }`. */
  predicate QuoteMatches(content: string, quotes: set<string>)
  {
    exists q :: q in quotes && Contains(Lower(content), q)
  }

  /** The branch of the `when` that took a message. */
  datatype Rule = All | Author | Bot | Embed | Link | File | Image | Quote

  /** The first rule, in the `when`'s order, that takes `m`; `None` when it is kept. */
  function MatchedRule(m: Message, cleanAll: bool, c: Criteria): Option<Rule>
  {
    if cleanAll then Some(All)
    else if m.authorId in c.ids then Some(Author)
    else if c.flags.bots && m.authorIsBot then Some(Bot)
    else if c.flags.embeds && m.hasEmbeds then Some(Embed)
    else if c.flags.links && HasLink(m.content) then Some(Link)
    else if c.flags.files && m.hasAttachments then Some(File)
    else if c.flags.images && m.hasImage then Some(Image)
    else if QuoteMatches(m.content, c.quotes) then Some(Quote)
    else None
  }

  predicate Selected(m: Message, cleanAll: bool, c: Criteria)
  {
    MatchedRule(m, cleanAll, c).Some?
  }

  /**
   * A message is taken exactly when one of the criteria holds; combining
   * flags widens the selection and never narrows it.
   */
  lemma SelectedIff(m: Message, cleanAll: bool, c: Criteria)
    ensures Selected(m, cleanAll, c) <==>
              cleanAll || m.authorId in c.ids || (c.flags.bots && m.authorIsBot)
              || (c.flags.embeds && m.hasEmbeds) || (c.flags.links && HasLink(m.content))
              || (c.flags.files && m.hasAttachments) || (c.flags.images && m.hasImage)
              || QuoteMatches(m.content, c.quotes)
    ensures Selected(m, cleanAll, c) ==>
              Selected(m, cleanAll, c.(flags := c.flags.(bots := true)))
  {
  }

  /** Files come before images: an image upload under both flags is taken as a file. */
  lemma FilesBeforeImages(m: Message, c: Criteria)
    requires c.flags.files && c.flags.images && m.hasAttachments
    requires m.authorId !in c.ids && !(c.flags.bots && m.authorIsBot)
    requires !(c.flags.embeds && m.hasEmbeds) && !(c.flags.links && HasLink(m.content))
    ensures MatchedRule(m, false, c) == Some(File)
  {
  }

  /** `creationTime.minusWeeks(2).plusMinutes(1)`, in seconds. */
  function TwoWeeksPrior(created: int): int
  {
    created - 14 * 24 * 60 * 60 + 60
  }

  /** `messages.remove(callMessage)`: the first message with that id goes. */
  function RemoveMessage(messages: seq<Message>, id: nat): (r: seq<Message>)
    ensures |r| <= |messages|
    ensures forall m :: m in r ==> m in messages
  {
    if messages == [] then []
    else if messages[0].id == id then messages[1..]
    else [messages[0]] + RemoveMessage(messages[1..], id)
  }

  /** How many leading messages are not older than `cutoff`. */
  function RecentCount(messages: seq<Message>, cutoff: int): (r: nat)
    ensures r <= |messages|
    ensures forall j :: 0 <= j < r ==> messages[j].createdAt >= cutoff
    ensures r < |messages| ==> messages[r].createdAt < cutoff
  {
    if messages == [] || messages[0].createdAt < cutoff then 0
    else 1 + RecentCount(messages[1..], cutoff)
  }

  /** The selected messages of `messages`, in order. */
  function SelectAll(messages: seq<Message>, cleanAll: bool, c: Criteria): (r: seq<Message>)
    ensures |r| <= |messages|
    ensures forall m :: m in r <==> m in messages && Selected(m, cleanAll, c)
  {
    if messages == [] then []
    else
      var last := messages[|messages| - 1];
      SelectAll(messages[..|messages| - 1], cleanAll, c) + (if Selected(last, cleanAll, c) then [last] else [])
  }

  lemma SelectAllAppend(a: seq<Message>, m: Message, cleanAll: bool, c: Criteria)
    ensures SelectAll(a + [m], cleanAll, c) ==
            SelectAll(a, cleanAll, c) + (if Selected(m, cleanAll, c) then [m] else [])
  {
    assert (a + [m])[..|a|] == a;
  }

  /**
   * The filter loop: messages are visited newest first until the first one
   * older than `cutoff`, which sets `pastTwoWeeks` and ends the scan.
   */
  method FilterMessages(messages: seq<Message>, cleanAll: bool, c: Criteria, cutoff: int)
      returns (toDelete: seq<Message>, pastTwoWeeks: bool)
    ensures toDelete == SelectAll(messages[..RecentCount(messages, cutoff)], cleanAll, c)
    ensures pastTwoWeeks <==> RecentCount(messages, cutoff) < |messages|
    ensures forall m :: m in toDelete ==> m in messages && m.createdAt >= cutoff && Selected(m, cleanAll, c)
  {
    toDelete := [];
    pastTwoWeeks := false;
    var i := 0;
    while i < |messages|
      invariant i <= RecentCount(messages, cutoff) && !pastTwoWeeks
      invariant toDelete == SelectAll(messages[..i], cleanAll, c)
    {
      var message := messages[i];
      if message.createdAt >= cutoff {
        FilterStep(messages, cleanAll, c, cutoff, i);
        if Selected(message, cleanAll, c) {
          toDelete := toDelete + [message];
        }
        i := i + 1;
      } else {
        pastTwoWeeks := true;
        break;
      }
    }
    assert i == RecentCount(messages, cutoff);
    RecentSelection(messages, cleanAll, c, cutoff);
  }

  /** A recent message at `i` extends the selection among the first `i` by itself, if it is selected. */
  lemma FilterStep(messages: seq<Message>, cleanAll: bool, c: Criteria, cutoff: int, i: nat)
    requires i < |messages| && i <= RecentCount(messages, cutoff) && messages[i].createdAt >= cutoff
    ensures i + 1 <= RecentCount(messages, cutoff)
    ensures SelectAll(messages[..i + 1], cleanAll, c) ==
            SelectAll(messages[..i], cleanAll, c) + (if Selected(messages[i], cleanAll, c) then [messages[i]] else [])
  {
    assert messages[..i + 1] == messages[..i] + [messages[i]];
    SelectAllAppend(messages[..i], messages[i], cleanAll, c);
  }

  /** The selection among the recent messages holds recent, selected messages only. */
  lemma RecentSelection(messages: seq<Message>, cleanAll: bool, c: Criteria, cutoff: int)
    ensures var r := SelectAll(messages[..RecentCount(messages, cutoff)], cleanAll, c);
      forall m :: m in r ==> m in messages && m.createdAt >= cutoff && Selected(m, cleanAll, c)
  {
    var n := RecentCount(messages, cutoff);
    forall m | m in SelectAll(messages[..n], cleanAll, c)
      ensures m in messages && m.createdAt >= cutoff
    {
      var k :| 0 <= k < n && messages[..n][k] == m;
      assert messages[k] == m;
    }
  }

  /**
   * The main tree's selection: the command's own message is dropped, then the
   * filter loop runs, clean-all mode included.
   */
  method SelectMain(messages: seq<Message>, callId: nat, c: Criteria, cutoff: int)
      returns (toDelete: seq<Message>, pastTwoWeeks: bool)
    ensures var rest := RemoveMessage(messages, callId);
      toDelete == SelectAll(rest[..RecentCount(rest, cutoff)], CleanAll(c), c)
      && (pastTwoWeeks <==> RecentCount(rest, cutoff) < |rest|)
    ensures forall m :: m in toDelete ==> m in messages && m.createdAt >= cutoff
  {
    toDelete, pastTwoWeeks := FilterMessages(RemoveMessage(messages, callId), CleanAll(c), c, cutoff);
  }

  /**
   * The rewrite's `toDelete` as written: clean-all takes every retrieved
   * message; otherwise the value is the labelled lambda `toDelete@ { ... }`
   * itself, which is never invoked, so no filtered list exists.
   */
  function RewriteToDeleteAsWritten(messages: seq<Message>, c: Criteria): Option<seq<Message>>
  {
    if CleanAll(c) then Some(messages) else None
  }

  /** With any filter (here the `bots` flag) the rewrite as written produces no list to delete. */
  lemma BotsFlagProducesNoList(messages: seq<Message>)
    ensures RewriteToDeleteAsWritten(messages, Criteria({}, {}, Flags(true, false, false, false, false))).None?
  {
  }

  /**
   * The rewrite's selection as evidently intended: clean-all takes every
   * retrieved message, with no cutoff; otherwise the filter loop runs.
   */
  method SelectRewrite(messages: seq<Message>, callId: nat, c: Criteria, cutoff: int)
      returns (toDelete: seq<Message>, pastTwoWeeks: bool)
    ensures var rest := RemoveMessage(messages, callId);
      (CleanAll(c) ==> toDelete == rest && !pastTwoWeeks)
      && (!CleanAll(c) ==> toDelete == SelectAll(rest[..RecentCount(rest, cutoff)], false, c)
                           && (pastTwoWeeks <==> RecentCount(rest, cutoff) < |rest|))
    ensures !CleanAll(c) ==> forall m :: m in toDelete ==> m.createdAt >= cutoff && Selected(m, false, c)
  {
    var rest := RemoveMessage(messages, callId);
    if CleanAll(c) {
      toDelete, pastTwoWeeks := rest, false;
    } else {
      toDelete, pastTwoWeeks := FilterMessages(rest, false, c, cutoff);
    }
  }

  /** Off clean-all mode the corrected rewrite selects exactly what the main tree does. */
  lemma SelectionsAgreeWhenFiltering(rest: seq<Message>, c: Criteria)
    requires !CleanAll(c)
    ensures SelectAll(rest, false, c) == SelectAll(rest, CleanAll(c), c)
  {
  }

  // ------------------------------------------------------------ deleting

  /** One delete request: a single message, or bulk deletion of positions `from` to `to`. */
  datatype Delete = Single(index: nat) | Bulk(from: nat, to: nat)

  /** The positions a list of delete requests covers, in order. */
  function Covered(ops: seq<Delete>): seq<nat>
  {
    if ops == [] then []
    else (match ops[0] case Single(i) => [i] case Bulk(a, b) => Range(a, b)) + Covered(ops[1..])
  }

  function Range(a: nat, b: nat): (r: seq<nat>)
    ensures |r| == if a <= b then b - a else 0
    ensures forall k :: 0 <= k < |r| ==> r[k] == a + k
    decreases b - a
  {
    if a >= b then [] else [a] + Range(a + 1, b)
  }

  lemma {:induction false} RangeSplit(a: nat, b: nat, c: nat)
    requires a <= b <= c
    ensures Range(a, c) == Range(a, b) + Range(b, c)
  {
    var l := Range(a, b) + Range(b, c);
    assert |l| == |Range(a, c)|;
    forall k | 0 <= k < |l|
      ensures l[k] == Range(a, c)[k]
    {
      if k < b - a {
        assert l[k] == Range(a, b)[k];
      } else {
        assert l[k] == Range(b, c)[k - (b - a)];
      }
    }
  }

  lemma CoveredAppend(ops: seq<Delete>, op: Delete)
    ensures Covered(ops + [op]) == Covered(ops) + Covered([op])
  {
    if ops != [] {
      assert (ops + [op])[1..] == ops[1..] + [op];
      CoveredAppend(ops[1..], op);
    }
  }

  /** A request Discord accepts: a single delete, or a bulk delete of 2 to 100 messages. */
  predicate Acceptable(op: Delete)
  {
    match op
    case Single(_) => true
    case Bulk(a, b) => a + 2 <= b <= a + MAX_RETRIEVABLE
  }

  /**
   * The delete loop over `n` selected messages: chunks of 100 from the
   * front; a short last chunk of two or more is one bulk delete, and a last
   * single message is deleted on its own.
   */
  method DeleteBatches(n: nat) returns (ops: seq<Delete>)
    ensures Covered(ops) == Range(0, n)
    ensures forall k :: 0 <= k < |ops| ==> Acceptable(ops[k])
    ensures forall k :: 0 <= k < |ops| && ops[k].Single? ==> k == |ops| - 1 && n % MAX_RETRIEVABLE == 1
    ensures |ops| == (n + MAX_RETRIEVABLE - 1) / MAX_RETRIEVABLE
  {
    ops := [];
    var i := 0;
    while i < n
      invariant BatchesSoFar(ops, i, n)
    {
      var op;
      if i + MAX_RETRIEVABLE > n {
        if i + 1 == n {
          op := Single(n - 1);
        } else {
          op := Bulk(i, n);
        }
      } else {
        op := Bulk(i, i + MAX_RETRIEVABLE);
      }
      BatchStep(ops, i, n, op);
      ops := ops + [op];
      i := i + MAX_RETRIEVABLE;
    }
    CeilingOfBatches(n, |ops|);
  }

  /** The delete loop's invariant after the batches `ops`, the next batch starting at `i`. */
  predicate BatchesSoFar(ops: seq<Delete>, i: nat, n: nat)
  {
    && i == |ops| * MAX_RETRIEVABLE && i < n + MAX_RETRIEVABLE
    && Covered(ops) == Range(0, if i <= n then i else n)
    && (forall k :: 0 <= k < |ops| ==> Acceptable(ops[k]))
    && (forall k :: 0 <= k < |ops| && ops[k].Single? ==> k == |ops| - 1 && n % MAX_RETRIEVABLE == 1 && i >= n)
  }

  /** One pass of the delete loop keeps its invariant. */
  lemma BatchStep(ops: seq<Delete>, i: nat, n: nat, op: Delete)
    requires BatchesSoFar(ops, i, n) && i < n
    requires op == if i + MAX_RETRIEVABLE > n then (if i + 1 == n then Single(n - 1) else Bulk(i, n))
                   else Bulk(i, i + MAX_RETRIEVABLE)
    ensures BatchesSoFar(ops + [op], i + MAX_RETRIEVABLE, n)
  {
    var end := if i + MAX_RETRIEVABLE > n then n else i + MAX_RETRIEVABLE;
    assert Covered([op]) == Range(i, end);
    RangeSplit(0, i, end);
    CoveredAppend(ops, op);
    if op.Single? {
      OneMoreThanMultiple(|ops|);
    }
    assert forall k :: 0 <= k < |ops| ==> (ops + [op])[k] == ops[k];
  }

  lemma OneMoreThanMultiple(b: nat)
    ensures (b * MAX_RETRIEVABLE + 1) % MAX_RETRIEVABLE == 1
  {
  }

  /** `b` batches of at most 100, all but the last full, hold `n` messages exactly when `b` is the ceiling of `n / 100`. */
  lemma CeilingOfBatches(n: nat, b: nat)
    requires n <= b * MAX_RETRIEVABLE < n + MAX_RETRIEVABLE
    ensures b == (n + MAX_RETRIEVABLE - 1) / MAX_RETRIEVABLE
  {
  }

  // ------------------------------------------------------------ the rewrite's getPast

  function Total(s: seq<nat>): nat
  {
    if s == [] then 0 else Total(s[..|s| - 1]) + s[|s| - 1]
  }

  lemma TotalAppend(s: seq<nat>, x: nat)
    ensures Total(s + [x]) == Total(s) + x
  {
    assert (s + [x])[..|s|] == s;
  }

  /** `retrievePast(k)` after `pos` messages: the next `k` of the history, or what is left. */
  function Retrieve(history: seq<Message>, pos: nat, k: nat): (r: seq<Message>)
    requires pos <= |history|
    ensures pos + |r| <= |history| && r == history[pos..pos + |r|] && |r| <= k
  {
    if pos + k <= |history| then history[pos..pos + k] else history[pos..]
  }

  /**
   * `breakIf`: the oldest message retrieved so far is older than the cutoff.
   * On an empty list the source's `it[it.size - 1]` throws; GetPast checks
   * that case before asking.
   */
  predicate PastCutoff(list: seq<Message>, cutoff: int)
  {
    list != [] && list[|list| - 1].createdAt < cutoff
  }

  /** What `b` answered requests of 100 retrieve from the newest message on. */
  function Batches(history: seq<Message>, b: nat): (r: seq<Message>)
    ensures |r| <= |history| && r == history[..|r|] && |r| <= b * MAX_RETRIEVABLE
    ensures b > 0 ==> (r == [] <==> history == [])
  {
    if b * MAX_RETRIEVABLE <= |history| then history[..b * MAX_RETRIEVABLE] else history
  }

  /** The first `n` requests answered, and none of the batches they brought passed the cutoff. */
  ghost predicate ClearBatches(history: seq<Message>, ok: nat -> bool, cutoff: int, n: nat)
  {
    forall k :: 0 <= k < n ==> ok(k) && !PastCutoff(Batches(history, k + 1), cutoff)
  }

  /** No prefix of full batches short of `number` reaches past the cutoff. */
  ghost predicate NeverPastCutoff(history: seq<Message>, number: nat, cutoff: int)
  {
    forall b :: 1 <= b && b * MAX_RETRIEVABLE < number ==> !PastCutoff(Batches(history, b), cutoff)
  }

  /** One more batch of 100 extends the batches retrieved so far. */
  lemma BatchesStep(history: seq<Message>, b: nat)
    ensures Batches(history, b) + Retrieve(history, |Batches(history, b)|, MAX_RETRIEVABLE) == Batches(history, b + 1)
  {
    if b * MAX_RETRIEVABLE <= |history| {
      var n := b * MAX_RETRIEVABLE;
      var r := Retrieve(history, n, MAX_RETRIEVABLE);
      assert history[..n] + history[n..n + |r|] == history[..n + |r|];
    }
  }

  /** The last request of `left` after `b` full batches completes the first `number` messages. */
  lemma FinalBatch(history: seq<Message>, b: nat, left: nat, number: nat)
    requires b * MAX_RETRIEVABLE + left == number <= |history|
    ensures Batches(history, b) + Retrieve(history, |Batches(history, b)|, left) == history[..number]
  {
    var n := b * MAX_RETRIEVABLE;
    assert history[..n] + history[n..number] == history[..number];
  }

  /** One more answered batch that stayed before the cutoff extends ClearBatches. */
  lemma ClearStep(history: seq<Message>, ok: nat -> bool, cutoff: int, n: nat)
    requires ClearBatches(history, ok, cutoff, n)
    requires ok(n) && !PastCutoff(Batches(history, n + 1), cutoff)
    ensures ClearBatches(history, ok, cutoff, n + 1)
  {
  }

  /**
   * The retrieval loop's invariant: every request so far asked for 100; the
   * list holds the answered batches; a failed request ends the loop, and so
   * does a batch past the cutoff (`stopped`), which sets `left` to 0.
   */
  ghost predicate PastSoFar(history: seq<Message>, ok: nat -> bool, cutoff: int, number: nat,
                            list: seq<Message>, requests: seq<nat>, left: nat, failed: bool, stopped: bool)
  {
    && (|requests| == 0 ==> !failed && !stopped && left == number)
    && (forall k :: 0 <= k < |requests| ==> requests[k] == MAX_RETRIEVABLE)
    && Total(requests) == |requests| * MAX_RETRIEVABLE
    && list == Batches(history, if failed then |requests| - 1 else |requests|)
    && (!failed && !stopped ==> Total(requests) + left == number && left > 0 && ClearBatches(history, ok, cutoff, |requests|))
    && (failed ==> !stopped && left > MAX_RETRIEVABLE && !ok(|requests| - 1) && Total(requests) < number && ClearBatches(history, ok, cutoff, |requests| - 1))
    && (stopped ==> left == 0 && |requests| >= 1 && Total(requests) < number)
    && (stopped ==> PastCutoff(Batches(history, |requests|), cutoff) && ClearBatches(history, ok, cutoff, |requests| - 1))
    && (|requests| > 0 && ok(0) ==> history != [])
  }

  /** Only the first batch can come back empty, and only from an empty history. */
  lemma EmptyOnlyFirst(history: seq<Message>, ok: nat -> bool, cutoff: int, number: nat,
                       list: seq<Message>, requests: seq<nat>, left: nat)
    requires PastSoFar(history, ok, cutoff, number, list, requests, left, false, false)
    requires ok(|requests|)
    requires list + Retrieve(history, |list|, MAX_RETRIEVABLE) == []
    ensures requests == [] && list == [] && history == []
  {
    BatchesStep(history, |requests|);
  }


  /**
   * The `while` loop of `getPast`: requests of 100 while more than 100
   * remain, until one fails or a batch passes the cutoff. It ends in the
   * loop's invariant with the loop's condition false, or with `breakIf`
   * thrown on an empty first batch.
   */
  method RequestBatches(number: nat, history: seq<Message>, ok: nat -> bool, cutoff: int)
      returns (list: seq<Message>, requests: seq<nat>, left: nat, failed: bool, threw: bool, ghost stopped: bool)
    requires number > MAX_RETRIEVABLE
    ensures threw ==> requests == [MAX_RETRIEVABLE] && list == [] && ok(0) && history == []
    ensures !threw ==> |requests| >= 1 && (left <= MAX_RETRIEVABLE || failed)
    ensures !threw ==> PastSoFar(history, ok, cutoff, number, list, requests, left, failed, stopped)
  {
    threw := false;
    list := [];
    requests := [];
    left := number;
    failed := false;
    stopped := false;
    while left > MAX_RETRIEVABLE && !failed
      invariant PastSoFar(history, ok, cutoff, number, list, requests, left, failed, stopped)
      decreases left, !failed
    {
      var j := |requests|;
      if !ok(j) {
        PastFails(history, ok, cutoff, number, list, requests, left);
        requests := requests + [MAX_RETRIEVABLE];
        failed := true;
      } else {
        var batch := Retrieve(history, |list|, MAX_RETRIEVABLE);
        if list + batch == [] {
          EmptyOnlyFirst(history, ok, cutoff, number, list, requests, left);
          requests := requests + [MAX_RETRIEVABLE];
          list := list + batch;
          threw := true;
          return;
        }
        PastAnswers(history, ok, cutoff, number, list, requests, left);
        requests := requests + [MAX_RETRIEVABLE];
        list := list + batch;
        left := left - MAX_RETRIEVABLE;
        if PastCutoff(list, cutoff) {
          left := 0;
          stopped := true;
        }
      }
    }
  }

  /** A failed request ends the loop in its invariant. */
  lemma PastFails(history: seq<Message>, ok: nat -> bool, cutoff: int, number: nat,
                  list: seq<Message>, requests: seq<nat>, left: nat)
    requires PastSoFar(history, ok, cutoff, number, list, requests, left, false, false)
    requires left > MAX_RETRIEVABLE && !ok(|requests|)
    ensures PastSoFar(history, ok, cutoff, number, list, requests + [MAX_RETRIEVABLE], left, true, false)
  {
    TotalAppend(requests, MAX_RETRIEVABLE);
    assert (requests + [MAX_RETRIEVABLE])[..|requests|] == requests;
  }

  /** An answered batch keeps the invariant, and stops the loop when it reaches past the cutoff. */
  lemma PastAnswers(history: seq<Message>, ok: nat -> bool, cutoff: int, number: nat,
                    list: seq<Message>, requests: seq<nat>, left: nat)
    requires PastSoFar(history, ok, cutoff, number, list, requests, left, false, false)
    requires left > MAX_RETRIEVABLE && ok(|requests|)
    requires list + Retrieve(history, |list|, MAX_RETRIEVABLE) != []
    ensures var list' := list + Retrieve(history, |list|, MAX_RETRIEVABLE);
      var stop := PastCutoff(list', cutoff);
      PastSoFar(history, ok, cutoff, number, list', requests + [MAX_RETRIEVABLE],
                if stop then 0 else left - MAX_RETRIEVABLE, false, stop)
  {
    var j := |requests|;
    TotalAppend(requests, MAX_RETRIEVABLE);
    BatchesStep(history, j);
    if !PastCutoff(list + Retrieve(history, |list|, MAX_RETRIEVABLE), cutoff) {
      ClearStep(history, ok, cutoff, j);
    }
  }


  /**
   * `getPast(number, breakIf)` over the channel `history` (newest first);
   * `ok(j)` says whether the `j`-th request answers. It asks for 100 at a
   * time while more than 100 remain, stops after a batch whose oldest message
   * is past the cutoff or after a request that failed, then asks for what is
   * left. Every request is between 1 and 100, and they never add up to more
   * than `number`; `breakIf` throws when the first batch comes back empty.
   * When every request answers, the history is long enough and no batch
   * passes the cutoff, the list is exactly the newest `number` messages.
   */
  method GetPast(number: nat, history: seq<Message>, ok: nat -> bool, cutoff: int)
      returns (list: seq<Message>, requests: seq<nat>, threw: bool)
    requires number > 0
    ensures |requests| >= 1
    ensures forall k :: 0 <= k < |requests| ==> 1 <= requests[k] <= MAX_RETRIEVABLE
    ensures Total(requests) <= number && |list| <= Total(requests)
    ensures number <= MAX_RETRIEVABLE ==> requests == [number]
    ensures forall k :: 0 <= k < |requests| - 1 ==> requests[k] == MAX_RETRIEVABLE
    ensures |list| <= |history| && list == history[..|list|]
    ensures threw <==> number > MAX_RETRIEVABLE && ok(0) && history == []
    ensures ClearBatches(history, ok, cutoff, |requests| - 1)
    ensures (forall j :: 0 <= j < |requests| ==> ok(j)) && number <= |history| && NeverPastCutoff(history, number, cutoff)
      ==> !threw && Total(requests) == number && list == history[..number]
  {
    if number <= MAX_RETRIEVABLE {
      requests := [number];
      list := if ok(0) then Retrieve(history, 0, number) else [];
      threw := false;
      PastShort(number, history, ok, cutoff);
    } else {
      var left, failed;
      ghost var stopped;
      list, requests, left, failed, threw, stopped := RequestBatches(number, history, ok, cutoff);
      if threw {
        PastThrew(number, history, ok, cutoff);
      } else if 1 <= left <= MAX_RETRIEVABLE {
        PastLast(history, ok, cutoff, number, list, requests, left, failed, stopped);
        var j := |requests|;
        requests := requests + [left];
        if ok(j) {
          list := list + Retrieve(history, |list|, left);
        }
      } else {
        PastNoLast(history, ok, cutoff, number, list, requests, left, failed, stopped);
      }
    }
  }

  /** The contract of GetPast, for the lemmas that prove it path by path. */
  ghost predicate PastOutcome(number: nat, history: seq<Message>, ok: nat -> bool, cutoff: int,
                              list: seq<Message>, requests: seq<nat>, threw: bool)
  {
    && |requests| >= 1
    && (forall k :: 0 <= k < |requests| ==> 1 <= requests[k] <= MAX_RETRIEVABLE)
    && Total(requests) <= number && |list| <= Total(requests)
    && (number <= MAX_RETRIEVABLE ==> requests == [number])
    && (forall k :: 0 <= k < |requests| - 1 ==> requests[k] == MAX_RETRIEVABLE)
    && |list| <= |history| && list == history[..|list|]
    && (threw <==> number > MAX_RETRIEVABLE && ok(0) && history == [])
    && ClearBatches(history, ok, cutoff, |requests| - 1)
    && ((forall j :: 0 <= j < |requests| ==> ok(j)) && number <= |history| && NeverPastCutoff(history, number, cutoff)
        ==> !threw && Total(requests) == number && list == history[..number])
  }

  /** Up to 100 messages take one request. */
  lemma PastShort(number: nat, history: seq<Message>, ok: nat -> bool, cutoff: int)
    requires 0 < number <= MAX_RETRIEVABLE
    ensures PastOutcome(number, history, ok, cutoff, if ok(0) then Retrieve(history, 0, number) else [], [number], false)
  {
    TotalAppend([], number);
    assert [] + [number] == [number];
  }

  /** An empty first batch throws in `breakIf`. */
  lemma PastThrew(number: nat, history: seq<Message>, ok: nat -> bool, cutoff: int)
    requires number > MAX_RETRIEVABLE && ok(0) && history == []
    ensures PastOutcome(number, history, ok, cutoff, [], [MAX_RETRIEVABLE], true)
  {
    TotalAppend([], MAX_RETRIEVABLE);
    assert [] + [MAX_RETRIEVABLE] == [MAX_RETRIEVABLE];
  }

  /** A failed request or a batch past the cutoff ends `getPast` without a last request. */
  lemma PastNoLast(history: seq<Message>, ok: nat -> bool, cutoff: int, number: nat,
                   list: seq<Message>, requests: seq<nat>, left: nat, failed: bool, stopped: bool)
    requires number > MAX_RETRIEVABLE
    requires PastSoFar(history, ok, cutoff, number, list, requests, left, failed, stopped)
    requires |requests| >= 1 && (left <= MAX_RETRIEVABLE || failed) && !(1 <= left <= MAX_RETRIEVABLE)
    ensures PastOutcome(number, history, ok, cutoff, list, requests, false)
  {
    if !failed {
      assert PastCutoff(Batches(history, |requests|), cutoff);
    }
  }

  /** The last request of `left` completes `getPast`. */
  lemma PastLast(history: seq<Message>, ok: nat -> bool, cutoff: int, number: nat,
                 list: seq<Message>, requests: seq<nat>, left: nat, failed: bool, stopped: bool)
    requires number > MAX_RETRIEVABLE
    requires PastSoFar(history, ok, cutoff, number, list, requests, left, failed, stopped)
    requires |requests| >= 1 && 1 <= left <= MAX_RETRIEVABLE
    ensures PastOutcome(number, history, ok, cutoff,
                        list + (if ok(|requests|) then Retrieve(history, |list|, left) else []),
                        requests + [left], false)
  {
    var j := |requests|;
    TotalAppend(requests, left);
    assert (requests + [left])[..j] == requests;
    if ok(j) && number <= |history| {
      FinalBatch(history, j, left, number);
    }
  }


}
