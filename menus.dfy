/**
 * Page arithmetic of the reaction menus: the Paginators of the rewrite,
 * of the commons library and of the main bot, and the two Slideshows.
 * Events, embeds and the Discord calls are left to the caller: a menu is
 * its page count, its navigation settings and the page it shows.
 */
module Menus {
  import opened Util

  function Min(a: int, b: int): int { if a <= b then a else b }
  function Max(a: int, b: int): int { if a >= b then a else b }

  // ------------------------------------------------------------ reactions

  /** The emotes a menu listens to; every other emote is `OtherEmote`. */
  datatype Reaction = BigLeft | Left | Stop | Right | BigRight | OtherEmote

  /** The emote names ⏪ ◀ ⏹ ▶ ⏩ the menus add to their message. */
  function EmoteName(r: Reaction): (name: Option<string>)
    ensures name.None? <==> r == OtherEmote
  {
    match r
    case BigLeft => Some("\U{23EA}")
    case Left => Some("\U{25C0}")
    case Stop => Some("\U{23F9}")
    case Right => Some("\U{25B6}")
    case BigRight => Some("\U{23E9}")
    case OtherEmote => None
  }

  /** The `when(event.reactionEmote.name)` dispatch. */
  function ReactionOf(name: string): Reaction
  {
    if name == "\U{23EA}" then BigLeft
    else if name == "\U{25C0}" then Left
    else if name == "\U{23F9}" then Stop
    else if name == "\U{25B6}" then Right
    else if name == "\U{23E9}" then BigRight
    else OtherEmote
  }

  lemma ReactionOfEmoteName(r: Reaction)
    ensures EmoteName(r).Some? ==> ReactionOf(EmoteName(r).value) == r
    ensures forall name :: ReactionOf(name) != OtherEmote ==> EmoteName(ReactionOf(name)) == Some(name)
  {
  }

  // ---------------------------------------------------------------- pages

  /** Integer ceiling of `n / d`. */
  function CeilDiv(n: nat, d: nat): (q: nat)
    requires d >= 1
    ensures q * d >= n
    ensures n > 0 ==> (q - 1) * d < n
    ensures q == 0 <==> n == 0
  {
    CeilDivBounds(n, d);
    (n + d - 1) / d
  }

  lemma CeilDivBounds(n: nat, d: nat)
    requires d >= 1
    ensures ((n + d - 1) / d) * d >= n
    ensures n > 0 ==> ((n + d - 1) / d - 1) * d < n
    ensures (n + d - 1) / d == 0 <==> n == 0
  {
    var q := (n + d - 1) / d;
    var r := (n + d - 1) % d;
    assert n + d - 1 == q * d + r && 0 <= r < d;
    assert (q - 1) * d == q * d - d;
  }

  /** `pages`: the item count over `itemsPerPage`, rounded up. */
  function Pages(size: nat, perPage: nat): (pages: nat)
    requires perPage >= 1
    ensures pages * perPage >= size
    ensures size > 0 ==> (pages - 1) * perPage < size
    ensures pages == 0 <==> size == 0
  {
    CeilDiv(size, perPage)
  }

  /** `paginate`'s clamp in the rewrite: `min(max(p, 1), pages)`. */
  function ClampMinMax(p: int, pages: int): (r: int)
    ensures pages >= 1 ==> 1 <= r <= pages
    ensures 1 <= p <= pages ==> r == p
    ensures pages < 1 ==> r == pages
  {
    Min(Max(p, 1), pages)
  }

  /** `paginate`'s clamp in commons and the main bot: `if p < 1 1 … else p`. */
  function ClampIfs(p: int, pages: int): (r: int)
    ensures pages >= 1 ==> 1 <= r <= pages
    ensures 1 <= p <= pages ==> r == p
    ensures p < 1 ==> r == 1
  {
    if p < 1 then 1 else if p > pages then pages else p
  }

  /** The two clamps agree on every menu with at least one page, and only there. */
  lemma ClampsAgree(p: int, pages: int)
    ensures pages >= 1 ==> ClampMinMax(p, pages) == ClampIfs(p, pages)
    ensures pages < 1 && p < 1 ==> ClampMinMax(p, pages) != ClampIfs(p, pages)
  {
  }

  // ----------------------------------------------------------- navigation

  /** What a handler knows about its menu besides the page it is on. */
  datatype Nav = Nav(pages: int, bulkSkipNumber: int, wrapPageEnds: bool)

  /** The page the BIG_LEFT loop ends on, started at `p` with counter `i`. */
  function BulkLeftFrom(nav: Nav, p: int, i: int): int
    decreases nav.bulkSkipNumber - i
  {
    if (p > 1 || nav.wrapPageEnds) && i < nav.bulkSkipNumber then
      BulkLeftFrom(nav, (if p == 1 && nav.wrapPageEnds then nav.pages + 1 else p) - 1, i + 1)
    else p
  }

  /** The page the BIG_RIGHT loop ends on, started at `p` with counter `i`. */
  function BulkRightFrom(nav: Nav, p: int, i: int): int
    decreases nav.bulkSkipNumber - i
  {
    if (p < nav.pages || nav.wrapPageEnds) && i < nav.bulkSkipNumber then
      BulkRightFrom(nav, (if p == nav.pages && nav.wrapPageEnds then 0 else p) + 1, i + 1)
    else p
  }

  /**
   * The page a reaction leads to from page `p`, or `None` when it ends the
   * menu (STOP). An emote the handler has no branch for keeps the page.
   */
  function Navigate(nav: Nav, r: Reaction, p: int): Option<int>
  {
    match r
    case Left => Some(if p > 1 then p - 1 else p)
    case Right => Some(if p < nav.pages then p + 1 else p)
    case BigLeft => Some(BulkLeftFrom(nav, p, 1))
    case BigRight => Some(BulkRightFrom(nav, p, 1))
    case Stop => None
    case OtherEmote => Some(p)
  }

  /**
   * `handleMessageReactionAddAction` of the rewrite and commons Paginators
   * and of both Slideshows: `newPageNum` stepped by the reaction.
   */
  method HandleReaction(nav: Nav, r: Reaction, pageNum: int) returns (next: Option<int>)
    ensures next == Navigate(nav, r, pageNum)
  {
    var newPageNum := pageNum;
    match r {
      case Left =>
        if newPageNum > 1 {
          newPageNum := newPageNum - 1;
        }
      case Right =>
        if newPageNum < nav.pages {
          newPageNum := newPageNum + 1;
        }
      case BigLeft =>
        if newPageNum > 1 || nav.wrapPageEnds {
          var i := 1;
          while (newPageNum > 1 || nav.wrapPageEnds) && i < nav.bulkSkipNumber
            invariant BulkLeftFrom(nav, newPageNum, i) == BulkLeftFrom(nav, pageNum, 1)
            decreases nav.bulkSkipNumber - i
          {
            if newPageNum == 1 && nav.wrapPageEnds {
              newPageNum := nav.pages + 1;
            }
            newPageNum := newPageNum - 1;
            i := i + 1;
          }
        }
      case BigRight =>
        if newPageNum < nav.pages || nav.wrapPageEnds {
          var i := 1;
          while (newPageNum < nav.pages || nav.wrapPageEnds) && i < nav.bulkSkipNumber
            invariant BulkRightFrom(nav, newPageNum, i) == BulkRightFrom(nav, pageNum, 1)
            decreases nav.bulkSkipNumber - i
          {
            if newPageNum == nav.pages && nav.wrapPageEnds {
              newPageNum := 0;
            }
            newPageNum := newPageNum + 1;
            i := i + 1;
          }
        }
      case Stop =>
        return None;
      case OtherEmote =>
    }
    next := Some(newPageNum);
  }

  lemma {:induction false} BulkLeftSaturating(nav: Nav, p: int, i: int)
    requires !nav.wrapPageEnds && p >= 1 && i <= nav.bulkSkipNumber
    ensures BulkLeftFrom(nav, p, i) == Max(p - (nav.bulkSkipNumber - i), 1)
    decreases nav.bulkSkipNumber - i
  {
    if p > 1 && i < nav.bulkSkipNumber {
      BulkLeftSaturating(nav, p - 1, i + 1);
    }
  }

  lemma {:induction false} BulkRightSaturating(nav: Nav, p: int, i: int)
    requires !nav.wrapPageEnds && p <= nav.pages && i <= nav.bulkSkipNumber
    ensures BulkRightFrom(nav, p, i) == Min(p + (nav.bulkSkipNumber - i), nav.pages)
    decreases nav.bulkSkipNumber - i
  {
    if p < nav.pages && i < nav.bulkSkipNumber {
      BulkRightSaturating(nav, p + 1, i + 1);
    }
  }

  lemma MulStep(a: int, c: int)
    ensures (a + 1) * c == a * c + c
  {
  }

  lemma MulMono(a: int, b: int, c: nat)
    requires a <= b
    ensures a * c <= b * c
  {
    assert b * c - a * c == (b - a) * c;
  }

  lemma MulMonoStrict(a: int, b: int, c: int)
    requires a < b && c >= 1
    ensures a * c + c <= b * c
  {
    MulStep(a, c);
    MulMono(a + 1, b, c);
  }

  lemma DivBounds(i: nat, d: nat)
    requires d >= 1
    ensures (i / d) * d <= i < (i / d + 1) * d
  {
    MulStep(i / d, d);
  }

  lemma ModOfMultiple(a: int, q: int, n: int, r: int)
    requires n >= 1 && 0 <= r < n && a == q * n + r
    ensures a % n == r
  {
    var q' := a / n;
    if q < q' {
      MulMonoStrict(q, q', n);
    } else if q > q' {
      MulMonoStrict(q', q, n);
    }
  }

  lemma ModShift(x: int, n: int)
    requires n >= 1
    ensures (x + n) % n == x % n
    ensures (x - n) % n == x % n
  {
    var q, r := x / n, x % n;
    MulStep(q, n);
    MulStep(q - 1, n);
    ModOfMultiple(x + n, q + 1, n, r);
    ModOfMultiple(x - n, q - 1, n, r);
  }

  lemma {:induction false} BulkLeftWrapping(nav: Nav, p: int, i: int)
    requires nav.wrapPageEnds && 1 <= p <= nav.pages && i <= nav.bulkSkipNumber
    ensures BulkLeftFrom(nav, p, i) == (p - 1 - (nav.bulkSkipNumber - i)) % nav.pages + 1
    decreases nav.bulkSkipNumber - i
  {
    var k := nav.bulkSkipNumber - i;
    if i < nav.bulkSkipNumber {
      if p == 1 {
        BulkLeftWrapping(nav, nav.pages, i + 1);
        ModShift(-k, nav.pages);
        assert nav.pages - 1 - (k - 1) == -k + nav.pages;
      } else {
        BulkLeftWrapping(nav, p - 1, i + 1);
        assert p - 1 - 1 - (k - 1) == p - 1 - k;
      }
    } else {
      ModOfMultiple(p - 1, 0, nav.pages, p - 1);
    }
  }

  lemma {:induction false} BulkRightWrapping(nav: Nav, p: int, i: int)
    requires nav.wrapPageEnds && 1 <= p <= nav.pages && i <= nav.bulkSkipNumber
    ensures BulkRightFrom(nav, p, i) == (p - 1 + (nav.bulkSkipNumber - i)) % nav.pages + 1
    decreases nav.bulkSkipNumber - i
  {
    var k := nav.bulkSkipNumber - i;
    if i < nav.bulkSkipNumber {
      if p == nav.pages {
        BulkRightWrapping(nav, 1, i + 1);
        ModShift(k - 1, nav.pages);
        assert nav.pages - 1 + k == (k - 1) + nav.pages;
      } else {
        BulkRightWrapping(nav, p + 1, i + 1);
        assert p + 1 - 1 + (k - 1) == p - 1 + k;
      }
    } else {
      ModOfMultiple(p - 1, 0, nav.pages, p - 1);
    }
  }

  /**
   * A bulk move takes `bulkSkipNumber - 1` unit steps: it saturates at the
   * first and last page, or wraps around when `wrapPageEnds` is set.
   */
  lemma NavigateBulk(nav: Nav, p: int)
    requires nav.bulkSkipNumber >= 1 && 1 <= p <= nav.pages
    ensures !nav.wrapPageEnds ==>
      Navigate(nav, BigLeft, p) == Some(Max(p - (nav.bulkSkipNumber - 1), 1)) &&
      Navigate(nav, BigRight, p) == Some(Min(p + (nav.bulkSkipNumber - 1), nav.pages))
    ensures nav.wrapPageEnds ==>
      Navigate(nav, BigLeft, p) == Some((p - 1 - (nav.bulkSkipNumber - 1)) % nav.pages + 1) &&
      Navigate(nav, BigRight, p) == Some((p - 1 + (nav.bulkSkipNumber - 1)) % nav.pages + 1)
  {
    if nav.wrapPageEnds {
      BulkLeftWrapping(nav, p, 1);
      BulkRightWrapping(nav, p, 1);
    } else {
      BulkLeftSaturating(nav, p, 1);
      BulkRightSaturating(nav, p, 1);
    }
  }

  /** Every reaction but STOP leads to a page of the menu; STOP ends it. */
  lemma NavigateInRange(nav: Nav, r: Reaction, p: int)
    requires nav.bulkSkipNumber >= 1 && 1 <= p <= nav.pages
    ensures Navigate(nav, r, p).None? <==> r == Stop
    ensures Navigate(nav, r, p).Some? ==> 1 <= Navigate(nav, r, p).value <= nav.pages
  {
    NavigateBulk(nav, p);
  }

  /** `checkReaction`: the reactions the rewrite and commons menus pick up. */
  function AcceptsReaction(nav: Nav, r: Reaction, onThisMessage: bool, validUser: bool): (ok: bool)
    ensures ok ==> onThisMessage && validUser && r != OtherEmote
    ensures ok && (r == BigLeft || r == BigRight) ==> nav.bulkSkipNumber > 1
    ensures onThisMessage && validUser && (r == Left || r == Stop || r == Right) ==> ok
  {
    if !onThisMessage then false
    else match r
      case Left | Right | Stop => validUser
      case BigLeft | BigRight => nav.bulkSkipNumber > 1 && validUser
      case OtherEmote => false
  }

  /** The main bot's Paginator waits only for ◀ ⏹ ▶. */
  function AcceptsReactionMain(r: Reaction, onThisMessage: bool, validUser: bool): (ok: bool)
    ensures ok <==> onThisMessage && validUser && (r == Left || r == Stop || r == Right)
  {
    if !onThisMessage then false
    else if !(r == Left || r == Stop || r == Right) then false
    else validUser
  }

  /**
   * The main bot's Paginator action: LEFT and RIGHT saturate, STOP ends.
   * It is the general handler with no bulk skipping and no wrapping.
   */
  method HandleReactionMain(pages: int, r: Reaction, pageNum: int) returns (next: Option<int>)
    ensures next == Navigate(Nav(pages, 1, false), r, pageNum)
  {
    var newPageNum := pageNum;
    match r {
      case Left =>
        if newPageNum > 1 {
          newPageNum := newPageNum - 1;
        }
      case Right =>
        if newPageNum < pages {
          newPageNum := newPageNum + 1;
        }
      case Stop =>
        return None;
      case _ =>
    }
    next := Some(newPageNum);
  }

  // ----------------------------------------------------------- typed text

  /** The text settings of a menu; `None` stands for a `null` text. */
  datatype TextNav = TextNav(leftText: Option<string>, rightText: Option<string>, allowTextInput: bool)

  /** `pagination` waits for messages as well as reactions. */
  predicate UsesTextInput(t: TextNav)
  {
    t.allowTextInput || (t.leftText.Some? && t.rightText.Some?)
  }

  predicate MatchesText(text: Option<string>, content: string)
  {
    text.Some? && EqIgnoreCase(content, text.value)
  }

  /**
   * The message filter of `paginationWithTextInput`: a message in the
   * menu's channel that names the left or right text (when both are set),
   * or a page number other than the current one (when typed input is on).
   */
  function AcceptsText(nav: Nav, t: TextNav, pageNum: int, content: string,
                       inChannel: bool, validUser: bool): (ok: bool)
    ensures ok <==> (inChannel && validUser &&
      ((t.leftText.Some? && t.rightText.Some? &&
        (MatchesText(t.leftText, content) || MatchesText(t.rightText, content))) ||
       (t.allowTextInput && ParseInt(content).Some? &&
        1 <= ParseInt(content).value <= nav.pages && ParseInt(content).value != pageNum)))
  {
    if !inChannel then false
    else if t.leftText.Some? && t.rightText.Some? &&
            (EqIgnoreCase(content, t.leftText.value) || EqIgnoreCase(content, t.rightText.value))
    then validUser
    else if t.allowTextInput then
      match ParseInt(content)
      case Some(i) => 1 <= i <= nav.pages && i != pageNum && validUser
      case None => false
    else false
  }

  /**
   * The page an accepted message leads to, as written. `None` is the
   * `NumberFormatException` of `content.toInt()`.
   */
  function TextTarget(nav: Nav, t: TextNav, pageNum: int, content: string): Option<int>
  {
    if MatchesText(t.leftText, content) && (1 < pageNum || nav.wrapPageEnds) then
      Some(if pageNum - 1 < 1 && nav.wrapPageEnds then nav.pages else pageNum - 1)
    else if MatchesText(t.rightText, content) && (pageNum < nav.pages || nav.wrapPageEnds) then
      Some(if pageNum + 1 > nav.pages && nav.wrapPageEnds then 1 else pageNum + 1)
    else ParseInt(content)
  }

  /**
   * A typed target outside the menu can only come from a left or right
   * text that could not move; a number always lands in the menu.
   */
  lemma TextTargetOutside(nav: Nav, t: TextNav, pageNum: int, content: string,
                          inChannel: bool, validUser: bool)
    requires AcceptsText(nav, t, pageNum, content, inChannel, validUser)
    requires 1 <= pageNum <= nav.pages
    ensures !(MatchesText(t.leftText, content) || MatchesText(t.rightText, content)) ==>
      TextTarget(nav, t, pageNum, content).Some? &&
      1 <= TextTarget(nav, t, pageNum, content).value <= nav.pages
    ensures TextTarget(nav, t, pageNum, content).None? ==>
      (MatchesText(t.leftText, content) || MatchesText(t.rightText, content))
  {
  }

  /**
   * The text "back" typed on the first page of a menu that does not wrap
   * is accepted by the filter, and the target then parses it as a number.
   */
  lemma TextAtFirstPageThrows()
    ensures var nav := Nav(3, 1, false);
            var t := TextNav(Some("back"), Some("next"), false);
            AcceptsText(nav, t, 1, "back", true, true) && TextTarget(nav, t, 1, "back").None?
  {
    var t := TextNav(Some("back"), Some("next"), false);
    assert MatchesText(t.leftText, "back");
    assert !MatchesText(t.rightText, "back") by {
      assert Lower("back")[0] != Lower("next")[0];
    }
    assert !IsDigit("back"[0]);
  }

  /** The target with a text that cannot move keeping the current page. */
  function TextTargetCorrected(nav: Nav, t: TextNav, pageNum: int, content: string): Option<int>
  {
    if MatchesText(t.leftText, content) && (1 < pageNum || nav.wrapPageEnds) then
      Some(if pageNum - 1 < 1 && nav.wrapPageEnds then nav.pages else pageNum - 1)
    else if MatchesText(t.rightText, content) && (pageNum < nav.pages || nav.wrapPageEnds) then
      Some(if pageNum + 1 > nav.pages && nav.wrapPageEnds then 1 else pageNum + 1)
    else if MatchesText(t.leftText, content) || MatchesText(t.rightText, content) then
      Some(pageNum)
    else ParseInt(content)
  }

  /** Every accepted message leads to a page of the menu. */
  lemma TextTargetCorrectedInRange(nav: Nav, t: TextNav, pageNum: int, content: string,
                                   inChannel: bool, validUser: bool)
    requires AcceptsText(nav, t, pageNum, content, inChannel, validUser)
    requires 1 <= pageNum <= nav.pages
    ensures TextTargetCorrected(nav, t, pageNum, content).Some?
    ensures 1 <= TextTargetCorrected(nav, t, pageNum, content).value <= nav.pages
    ensures TextTargetCorrected(nav, t, pageNum, content) != TextTarget(nav, t, pageNum, content) ==>
      MatchesText(t.leftText, content) || MatchesText(t.rightText, content)
  {
  }

  // ------------------------------------------------------------ rendering

  /** The text of item `i`: "`i+1.`" in one column, "i+1. " in a field. */
  function ItemLine(items: seq<string>, i: nat, numberItems: bool, inField: bool): string
    requires i < |items|
  {
    var n := NatToString(i + 1);
    (if !numberItems then "" else if inField then n + ". " else "`" + n + ".`") + items[i]
  }

  /** The lines of items `from` up to `to`, in order. */
  function Lines(items: seq<string>, from: nat, to: nat, numberItems: bool, inField: bool): (r: seq<string>)
    requires from <= to <= |items|
    ensures |r| == to - from
    ensures forall j :: 0 <= j < |r| ==> r[j] == ItemLine(items, from + j, numberItems, inField)
  {
    seq(to - from, j requires 0 <= j < to - from => ItemLine(items, from + j, numberItems, inField))
  }

  lemma LinesConcat(items: seq<string>, a: nat, b: nat, c: nat, numberItems: bool, inField: bool)
    requires a <= b <= c <= |items|
    ensures Lines(items, a, b, numberItems, inField) + Lines(items, b, c, numberItems, inField)
         == Lines(items, a, c, numberItems, inField)
  {
    var l, rr := Lines(items, a, b, numberItems, inField), Lines(items, b, c, numberItems, inField);
    var all := Lines(items, a, c, numberItems, inField);
    assert |l + rr| == |all|;
    forall j | 0 <= j < |all| ensures (l + rr)[j] == all[j] {
      if j < |l| {
        assert (l + rr)[j] == l[j];
      } else {
        assert (l + rr)[j] == rr[j - |l|];
      }
    }
  }

  /** One past the last item index on page `p`: `min(size, p * itemsPerPage)`. */
  function SliceEnd(size: nat, perPage: nat, p: int): (hi: nat)
    requires perPage >= 1 && p >= 1
    ensures hi <= size
  {
    Min(size, p * perPage)
  }

  /** The first item index on page `p`, `(p-1) * itemsPerPage`, or the end past the last page. */
  function SliceStart(size: nat, perPage: nat, p: int): (lo: nat)
    requires perPage >= 1 && p >= 1
    ensures lo <= SliceEnd(size, perPage, p)
  {
    Min((p - 1) * perPage, SliceEnd(size, perPage, p))
  }

  /** Item `i` is on page `i / itemsPerPage + 1`, a page of the menu. */
  lemma PageOfItem(size: nat, perPage: nat, i: nat)
    requires perPage >= 1 && i < size
    ensures var p := i / perPage + 1;
      1 <= p <= Pages(size, perPage) &&
      SliceStart(size, perPage, p) <= i < SliceEnd(size, perPage, p)
  {
    var p := i / perPage + 1;
    DivBounds(i, perPage);
    var n := Pages(size, perPage);
    if p > n {
      MulMono(n, p - 1, perPage);
    }
  }

  /** No other page shows item `i`. */
  lemma PageOfItemUnique(size: nat, perPage: nat, i: nat, q: int)
    requires perPage >= 1 && q >= 1
    requires SliceStart(size, perPage, q) <= i < SliceEnd(size, perPage, q)
    ensures q == i / perPage + 1
  {
    var p := i / perPage + 1;
    DivBounds(i, perPage);
    if q < p {
      MulMono(q, p - 1, perPage);
    } else if q > p {
      MulMono(p, q - 1, perPage);
    }
  }

  /**
   * Every page of the menu starts at `(p-1) * itemsPerPage` and shows at
   * least one item; all but the last show `itemsPerPage` of them.
   */
  lemma PageIsFull(size: nat, perPage: nat, q: int)
    requires perPage >= 1 && 1 <= q <= Pages(size, perPage)
    ensures SliceStart(size, perPage, q) == (q - 1) * perPage < SliceEnd(size, perPage, q)
    ensures q < Pages(size, perPage) ==>
      SliceEnd(size, perPage, q) - SliceStart(size, perPage, q) == perPage
  {
    var n := Pages(size, perPage);
    MulMono(q - 1, n - 1, perPage);
    MulStep(q - 1, perPage);
    if q < n {
      MulMono(q, n - 1, perPage);
    }
  }

  lemma StartSign(p: int, d: nat)
    requires d >= 1
    ensures (p - 1) * d < 0 <==> p < 1
  {
    if p < 1 {
      MulMonoStrict(p - 1, 0, d);
    } else {
      MulMono(0, p - 1, d);
    }
  }

  /**
   * `renderPage` with one column: the lines of the page's items. A page
   * below 1 starts at a negative index, and `items[start]` throws.
   */
  method RenderPage(items: seq<string>, perPage: nat, pageNum: int, numberItems: bool)
    returns (r: Result<seq<string>>)
    requires perPage >= 1
    ensures r.Err? <==> pageNum < 1
    ensures r.Ok? ==> r.value == Lines(items, SliceStart(|items|, perPage, pageNum),
                                      SliceEnd(|items|, perPage, pageNum), numberItems, false)
  {
    var start := (pageNum - 1) * perPage;
    StartSign(pageNum, perPage);
    if start < 0 {
      return Err("IndexOutOfBoundsException");
    }
    var end := Min(|items|, pageNum * perPage);
    var lo := Min(start, end);
    var lines := [];
    var i := start;
    while i < end
      invariant start <= i <= Max(start, end)
      invariant lines == Lines(items, lo, Min(i, end), numberItems, false)
    {
      LinesConcat(items, lo, i, i + 1, numberItems, false);
      lines := lines + [ItemLine(items, i, numberItems, false)];
      i := i + 1;
    }
    r := Ok(lines);
  }

  function Flatten<T>(blocks: seq<seq<T>>): seq<T>
  {
    if blocks == [] then [] else Flatten(blocks[..|blocks| - 1]) + blocks[|blocks| - 1]
  }

  lemma FlattenSnoc<T>(blocks: seq<seq<T>>, b: seq<T>)
    ensures Flatten(blocks + [b]) == Flatten(blocks) + b
  {
    assert (blocks + [b])[..|blocks|] == blocks;
  }

  /** The lines of the field that starts at item `a` and holds up to `per` items before `hi`. */
  function FieldLines(items: seq<string>, a: int, per: nat, hi: nat, numberItems: bool): seq<string>
    requires 0 <= a && hi <= |items|
  {
    Lines(items, Min(a, hi), Min(a + per, hi), numberItems, true)
  }

  /** The `while` loop that fills one field. */
  method RenderField(items: seq<string>, a: nat, per: nat, end: nat, numberItems: bool)
    returns (field: seq<string>)
    requires end <= |items|
    ensures field == FieldLines(items, a, per, end, numberItems)
  {
    field := [];
    var i := a;
    var b := a + per;
    while i < end && i < b
      invariant a <= i <= Max(a, Min(b, end))
      invariant field == Lines(items, Min(a, end), Min(i, end), numberItems, true)
    {
      LinesConcat(items, Min(a, end), i, i + 1, numberItems, true);
      field := field + [ItemLine(items, i, numberItems, true)];
      i := i + 1;
    }
  }

  /** The `for(k in 0 until columns)` loop over the fields. */
  /** Each of the first `k` fields holds the items from `start + j*per` on. */
  predicate FieldsAt(items: seq<string>, start: nat, end: nat, per: nat, numberItems: bool,
                     fields: seq<seq<string>>, k: nat)
    requires start <= end <= |items| && k <= |fields|
  {
    forall j :: 0 <= j < k ==> fields[j] == FieldLines(items, start + j * per, per, end, numberItems)
  }

  /** The first `k` fields of `FillFields`, rendered column by column. */
  predicate FieldsSoFar(items: seq<string>, start: nat, end: nat, per: nat, numberItems: bool,
                        fields: seq<seq<string>>, k: nat)
    requires start <= end <= |items|
  {
    |fields| == k
    && FieldsAt(items, start, end, per, numberItems, fields, k)
    && Flatten(fields) == Lines(items, start, Min(start + k * per, end), numberItems, true)
  }

  /** Appending the field from `start + k*per` extends the first `k` fields to `k + 1`. */
  lemma FieldsStep(items: seq<string>, start: nat, end: nat, per: nat, numberItems: bool,
                   fields: seq<seq<string>>, k: nat, field: seq<string>)
    requires start <= end <= |items|
    requires FieldsSoFar(items, start, end, per, numberItems, fields, k)
    requires field == FieldLines(items, start + k * per, per, end, numberItems)
    ensures FieldsSoFar(items, start, end, per, numberItems, fields + [field], k + 1)
  {
    MulStep(k, per);
    FlattenStep(items, start, end, numberItems, fields, start + k * per, start + k * per + per, field);
    FieldsAtStep(items, start, end, per, numberItems, fields, k, field);
  }

  lemma FieldsAtStep(items: seq<string>, start: nat, end: nat, per: nat, numberItems: bool,
                     fields: seq<seq<string>>, k: nat, field: seq<string>)
    requires start <= end <= |items| && k == |fields|
    requires FieldsAt(items, start, end, per, numberItems, fields, k)
    requires field == FieldLines(items, start + k * per, per, end, numberItems)
    ensures FieldsAt(items, start, end, per, numberItems, fields + [field], k + 1)
  {
    var fs := fields + [field];
    forall j | 0 <= j < k + 1
      ensures fs[j] == FieldLines(items, start + j * per, per, end, numberItems)
    {
      if j < k { assert fs[j] == fields[j]; }
    }
  }

  lemma FlattenStep(items: seq<string>, start: nat, end: nat, numberItems: bool,
                    fields: seq<seq<string>>, a: nat, b: nat, field: seq<string>)
    requires start <= end <= |items| && start <= a <= b
    requires Flatten(fields) == Lines(items, start, Min(a, end), numberItems, true)
    requires field == Lines(items, Min(a, end), Min(b, end), numberItems, true)
    ensures Flatten(fields + [field]) == Lines(items, start, Min(b, end), numberItems, true)
  {
    FlattenSnoc(fields, field);
    LinesConcat(items, start, Min(a, end), Min(b, end), numberItems, true);
  }

  method FillFields(items: seq<string>, start: nat, end: nat, per: nat, columns: nat, numberItems: bool)
    returns (fields: seq<seq<string>>)
    requires start <= end <= |items| && columns * per >= end - start
    ensures |fields| == columns
    ensures forall k :: 0 <= k < columns ==> fields[k] == FieldLines(items, start + k * per, per, end, numberItems)
    ensures Flatten(fields) == Lines(items, start, end, numberItems, true)
  {
    fields := [];
    var k := 0;
    var a := start;
    while k < columns
      invariant 0 <= k <= columns && a == start + k * per
      invariant FieldsSoFar(items, start, end, per, numberItems, fields, k)
    {
      var field := RenderField(items, a, per, end, numberItems);
      FieldsStep(items, start, end, per, numberItems, fields, k, field);
      fields := fields + [field];
      k := k + 1;
      a := a + per;
    }
    assert Min(start + columns * per, end) == end;
  }

  /**
   * `renderPage` with several columns: field `k` holds the page's items
   * from `start + k*per` on, at most `per` of them, `per` being the page's
   * item count over the column count rounded up; so the fields together
   * show the page's items once each and in order.
   */
  method RenderColumns(items: seq<string>, perPage: nat, pageNum: int, columns: nat, numberItems: bool)
    returns (r: Result<seq<seq<string>>>)
    requires perPage >= 1 && columns >= 1
    ensures r.Err? <==> pageNum < 1
    ensures r.Ok? ==> |r.value| == columns
    ensures r.Ok? ==>
      var lo, hi := SliceStart(|items|, perPage, pageNum), SliceEnd(|items|, perPage, pageNum);
      Flatten(r.value) == Lines(items, lo, hi, numberItems, true)
    ensures r.Ok? ==>
      var lo, hi := SliceStart(|items|, perPage, pageNum), SliceEnd(|items|, perPage, pageNum);
      var per := CeilDiv(hi - lo, columns);
      forall k :: 0 <= k < columns ==> r.value[k] == FieldLines(items, lo + k * per, per, hi, numberItems)
  {
    var start := (pageNum - 1) * perPage;
    StartSign(pageNum, perPage);
    if start < 0 {
      return Err("IndexOutOfBoundsException");
    }
    var end := Min(|items|, pageNum * perPage);
    var fields: seq<seq<string>> := [];
    if start >= end {
      // past the last page `per` is not positive and no field gets a line
      var k := 0;
      while k < columns
        invariant 0 <= k <= columns && |fields| == k
        invariant forall j :: 0 <= j < k ==> fields[j] == []
        invariant Flatten(fields) == []
      {
        FlattenSnoc(fields, []);
        fields := fields + [[]];
        k := k + 1;
      }
      return Ok(fields);
    }
    var per := CeilDiv(end - start, columns);
    fields := FillFields(items, start, end, per, columns, numberItems);
    r := Ok(fields);
  }

  // ------------------------------------------------------------ slideshow

  /** The image of page `p`: `urls[p - 1]`, which throws outside `1..size`. */
  function SlideImage(urls: seq<string>, pageNum: int): (r: Result<string>)
    ensures r.Ok? <==> 1 <= pageNum <= |urls|
    ensures r.Ok? ==> r.value == urls[pageNum - 1]
  {
    if 1 <= pageNum <= |urls| then Ok(urls[pageNum - 1]) else Err("IndexOutOfBoundsException")
  }

  /**
   * A Slideshow has one page per URL. With URLs it opens on a page it can
   * render, whatever page is asked for; with none, both clamps pick a page
   * it cannot render.
   */
  lemma SlideshowOpens(urls: seq<string>, p: int)
    ensures |urls| >= 1 ==> SlideImage(urls, ClampMinMax(p, |urls|)).Ok?
    ensures |urls| >= 1 ==> SlideImage(urls, ClampIfs(p, |urls|)).Ok?
    ensures |urls| == 0 ==> ClampMinMax(p, |urls|) == 0 && SlideImage(urls, ClampMinMax(p, |urls|)).Err?
    ensures |urls| == 0 ==> SlideImage(urls, ClampIfs(p, |urls|)).Err?
  {
  }

  /** Navigating a Slideshow keeps it on a page it can render. */
  lemma SlideshowNavigates(urls: seq<string>, bulk: int, wrap: bool, r: Reaction, p: int)
    requires bulk >= 1 && 1 <= p <= |urls|
    ensures var next := Navigate(Nav(|urls|, bulk, wrap), r, p);
      next.Some? ==> SlideImage(urls, next.value).Ok?
  {
    NavigateInRange(Nav(|urls|, bulk, wrap), r, p);
  }

  // -------------------------------------------------------------- builder

  /**
   * `Paginator.Builder`: the items and the layout settings. The `columns`
   * and `itemsPerPage` setters reject values out of range
   * (`IllegalArgumentException`), the bulk setter raises values below 1.
   */
  class PaginatorBuilder {
    var items: seq<string>
    var columns: int
    var itemsPerPage: int
    var bulkSkipNumber: int
    var wrapPageEnds: bool
    var numberItems: bool

    ghost predicate Valid()
      reads this
    {
      1 <= columns <= 3 && itemsPerPage >= 1 && bulkSkipNumber >= 1
    }

    constructor()
      ensures Valid()
      ensures items == [] && columns == 1 && itemsPerPage == 10 && bulkSkipNumber == 1
      ensures !wrapPageEnds && !numberItems
    {
      items := [];
      columns := 1;
      itemsPerPage := 10;
      bulkSkipNumber := 1;
      wrapPageEnds := false;
      numberItems := false;
    }

    method SetColumns(v: int) returns (ok: bool)
      requires Valid()
      modifies this
      ensures Valid()
      ensures ok <==> 1 <= v <= 3
      ensures columns == (if ok then v else old(columns))
      ensures items == old(items) && itemsPerPage == old(itemsPerPage) && bulkSkipNumber == old(bulkSkipNumber)
      ensures wrapPageEnds == old(wrapPageEnds) && numberItems == old(numberItems)
    {
      ok := 1 <= v <= 3;
      if ok {
        columns := v;
      }
    }

    method SetItemsPerPage(v: int) returns (ok: bool)
      requires Valid()
      modifies this
      ensures Valid()
      ensures ok <==> v >= 1
      ensures itemsPerPage == (if ok then v else old(itemsPerPage))
      ensures items == old(items) && columns == old(columns) && bulkSkipNumber == old(bulkSkipNumber)
      ensures wrapPageEnds == old(wrapPageEnds) && numberItems == old(numberItems)
    {
      ok := v >= 1;
      if ok {
        itemsPerPage := v;
      }
    }

    method SetBulkSkipNumber(v: int)
      requires Valid()
      modifies this
      ensures Valid()
      ensures bulkSkipNumber == Max(v, 1)
      ensures items == old(items) && columns == old(columns) && itemsPerPage == old(itemsPerPage)
      ensures wrapPageEnds == old(wrapPageEnds) && numberItems == old(numberItems)
    {
      bulkSkipNumber := Max(v, 1);
    }

    method SetWrapPageEnds(v: bool)
      requires Valid()
      modifies this
      ensures Valid()
      ensures wrapPageEnds == v
      ensures items == old(items) && columns == old(columns) && itemsPerPage == old(itemsPerPage)
      ensures bulkSkipNumber == old(bulkSkipNumber) && numberItems == old(numberItems)
    {
      wrapPageEnds := v;
    }

    method Add(item: string)
      requires Valid()
      modifies this
      ensures Valid()
      ensures items == old(items) + [item]
      ensures columns == old(columns) && itemsPerPage == old(itemsPerPage)
      ensures bulkSkipNumber == old(bulkSkipNumber) && wrapPageEnds == old(wrapPageEnds)
      ensures numberItems == old(numberItems)
    {
      items := items + [item];
    }

    /**
     * `build()`: a Paginator needs at least one item. The result is its
     * navigation settings, with one page per `itemsPerPage` items.
     */
    method Build() returns (r: Result<Nav>)
      requires Valid()
      ensures r.Err? <==> items == []
      ensures r.Ok? ==> r.value.pages == Pages(|items|, itemsPerPage) >= 1
      ensures r.Ok? ==> r.value.bulkSkipNumber == bulkSkipNumber >= 1
      ensures r.Ok? ==> r.value.wrapPageEnds == wrapPageEnds
    {
      if items == [] {
        return Err("Must include at least one item to paginate.");
      }
      r := Ok(Nav(Pages(|items|, itemsPerPage), bulkSkipNumber, wrapPageEnds));
    }
  }

  /**
   * A menu built by the builder and shown at any requested page stays on
   * its pages under every reaction and every corrected text target.
   */
  lemma BuiltMenuStaysInRange(nav: Nav, requested: int, r: Reaction)
    requires nav.pages >= 1 && nav.bulkSkipNumber >= 1
    ensures var p := ClampMinMax(requested, nav.pages);
      1 <= p <= nav.pages &&
      (Navigate(nav, r, p).Some? ==> 1 <= Navigate(nav, r, p).value <= nav.pages)
  {
    NavigateInRange(nav, r, ClampMinMax(requested, nav.pages));
  }
}
