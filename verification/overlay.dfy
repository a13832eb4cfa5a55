/** One frame of the video overlay (`drawOverlay`) as a render description:
    what is drawn, not where. */
module Overlay {
  import opened Common
  import opened Feedback
  import opened Tiers
  import opened Timestamps
  import opened Ranking
  import opened Truncation

  /** The canvas fonts whose text widths the overlay measures. */
  datatype Font = CaptionFont | ItemTitleFont | ItemFixFont

  /** `ctx.measureText(text).width` under a given font. */
  type Measure = (Font, string) -> real

  const CaptionFloor: nat := 20
  const ItemFloor: nat := 10
  /** Room the caption leaves for the dashboard: `maxWidth = width - 400`. */
  const DashboardReserve: int := 400
  const ItemTitleMaxWidth: real := 140.0
  /** `width - padding * 2 - 28` with the dashboard's width 320 and padding 12. */
  const ItemFixMaxWidth: real := 268.0
  const TopCount: nat := 3

  /** The warning sign U+26A0 with emoji presentation U+FE0F, then a space. */
  const WarningPrefix: string := "\U{26A0}\U{FE0F} "
  /** The check mark U+2713, then a space. */
  const CheckPrefix: string := "\U{2713} "

  datatype ScoreBadge = ScoreBadge(score: real, color: string)
  datatype Caption = Caption(text: string, border: string)
  datatype IssueItem = IssueItem(number: nat, title: string, fix: string, badge: string, color: string)
  /** The "Quick Analysis" panel: the actual-score bar's colour, the gap to 10
      when there is one, and the top issues. */
  datatype Dashboard = Dashboard(barColor: string, gap: Option<real>, items: seq<IssueItem>)

  /** A frame: cleared, drawn, or aborted after the badge because the caption
      was asked to draw a pair that does not exist. */
  datatype Frame =
    | Clear
    | Drawn(badge: ScoreBadge, caption: Option<Caption>, dashboard: Option<Dashboard>)
    | Aborted(badge: ScoreBadge)

  // ---------------------------------------------------------------------
  // Which pair the caption shows.
  // ---------------------------------------------------------------------

  /** `isIssueActiveAtTime` for every pair at playback time `t`. */
  function ActiveFlags(pairs: seq<FeedbackPair>, t: real): (flags: seq<bool>)
    ensures |flags| == |pairs|
    ensures forall i :: 0 <= i < |pairs| ==> flags[i] == IsIssueActiveAtTime(pairs[i].timestamp, t)
  {
    seq(|pairs|, i requires 0 <= i < |pairs| => IsIssueActiveAtTime(pairs[i].timestamp, t))
  }

  /** The filter inside `drawOverlay`: pair `i` is kept when it is active or
      selected. */
  predicate Live(active: seq<bool>, selected: Option<nat>, i: nat)
    requires i < |active|
  {
    active[i] || selected == Some(i)
  }

  /** `activeIssues`, from index `i` on: the live pairs in list order. */
  function LiveFrom(pairs: seq<FeedbackPair>, active: seq<bool>, selected: Option<nat>, i: nat): (live: seq<FeedbackPair>)
    requires |active| == |pairs| && i <= |pairs|
    ensures |live| <= |pairs| - i
    ensures forall x :: x in live ==> exists k :: i <= k < |pairs| && Live(active, selected, k) && pairs[k] == x
    decreases |pairs| - i
  {
    if i == |pairs| then []
    else (if Live(active, selected, i) then [pairs[i]] else []) + LiveFrom(pairs, active, selected, i + 1)
  }

  /** The caption's choice: none, a pair, or `feedback_pairs[selectedIssue]`
      read past the end of the list (`undefined`). */
  datatype Choice = NoCaption | Chosen(pair: FeedbackPair) | UndefinedPair

  function ChooseCaption(pairs: seq<FeedbackPair>, selected: Option<nat>, t: real): (c: Choice)
    ensures c.Chosen? ==> c.pair in pairs
    ensures c.UndefinedPair? ==> selected.Some? && |pairs| <= selected.value
    ensures c.Chosen? && selected.Some? ==> selected.value < |pairs| && c.pair == pairs[selected.value]
  {
    var live := LiveFrom(pairs, ActiveFlags(pairs, t), selected, 0);
    if |live| == 0 then NoCaption
    else
      match selected
      case Some(i) => if i < |pairs| then Chosen(pairs[i]) else UndefinedPair
      case None =>
        assert live[0] in live;
        Chosen(live[0])
  }

  /** Reference: the first index, in list order, whose flag is set. */
  function FirstActive(active: seq<bool>, i: nat): (r: Option<nat>)
    requires i <= |active|
    ensures r.Some? ==> i <= r.value < |active| && active[r.value]
    ensures forall k :: i <= k < |active| && (r.None? || k < r.value) ==> !active[k]
    decreases |active| - i
  {
    if i == |active| then None
    else if active[i] then Some(i)
    else FirstActive(active, i + 1)
  }

  lemma {:induction false} LiveFromContains(pairs: seq<FeedbackPair>, active: seq<bool>, selected: Option<nat>, i: nat, k: nat)
    requires |active| == |pairs| && i <= k < |pairs| && Live(active, selected, k)
    ensures |LiveFrom(pairs, active, selected, i)| > 0
    decreases k - i
  {
    if i < k {
      LiveFromContains(pairs, active, selected, i + 1, k);
    }
  }

  /** A selection past the end of the list selects nothing. */
  lemma {:induction false} LiveFromStaleSelection(pairs: seq<FeedbackPair>, active: seq<bool>, selected: nat, i: nat)
    requires |active| == |pairs| && i <= |pairs| <= selected
    ensures LiveFrom(pairs, active, Some(selected), i) == LiveFrom(pairs, active, None, i)
    decreases |pairs| - i
  {
    if i < |pairs| {
      LiveFromStaleSelection(pairs, active, selected, i + 1);
    }
  }

  lemma {:induction false} LiveFromHeadIsFirstActive(pairs: seq<FeedbackPair>, active: seq<bool>, i: nat)
    requires |active| == |pairs| && i <= |pairs|
    ensures var live := LiveFrom(pairs, active, None, i);
            match FirstActive(active, i)
            case None => live == []
            case Some(k) => |live| > 0 && live[0] == pairs[k]
    decreases |pairs| - i
  {
    if i < |pairs| {
      LiveFromHeadIsFirstActive(pairs, active, i + 1);
    }
  }

  /** A selection of an existing pair wins whatever the playback time. */
  lemma SelectedPairIsCaption(pairs: seq<FeedbackPair>, i: nat, t: real)
    requires i < |pairs|
    ensures ChooseCaption(pairs, Some(i), t) == Chosen(pairs[i])
  {
    LiveFromContains(pairs, ActiveFlags(pairs, t), Some(i), 0, i);
  }

  /** Without a selection the caption is the first pair active at `t`, or none. */
  lemma UnselectedCaptionIsFirstActive(pairs: seq<FeedbackPair>, t: real)
    ensures ChooseCaption(pairs, None, t) ==
              match FirstActive(ActiveFlags(pairs, t), 0)
              case None => NoCaption
              case Some(k) => Chosen(pairs[k])
  {
    LiveFromHeadIsFirstActive(pairs, ActiveFlags(pairs, t), 0);
  }

  /** A selection past the end of the list (left over from an earlier
      analysis) dereferences `undefined` as soon as any pair is active. */
  lemma StaleSelectionIsUndefined(pairs: seq<FeedbackPair>, i: nat, t: real)
    requires |pairs| <= i
    ensures ChooseCaption(pairs, Some(i), t) ==
              if FirstActive(ActiveFlags(pairs, t), 0).Some? then UndefinedPair else NoCaption
  {
    LiveFromStaleSelection(pairs, ActiveFlags(pairs, t), i, 0);
    LiveFromHeadIsFirstActive(pairs, ActiveFlags(pairs, t), 0);
  }

  // ---------------------------------------------------------------------
  // The frame.
  // ---------------------------------------------------------------------

  /** `⚠️ ${issue.body_part}: ${issue.issue}`. */
  function CaptionText(p: FeedbackPair): string {
    WarningPrefix + p.bodyPart + ": " + p.issue
  }

  /** `drawSingleLineText`: the caption text cut to the room left beside the
      dashboard, framed in the pair's severity colour. */
  function CaptionFor(p: FeedbackPair, canvasWidth: int, measure: Measure): (c: Caption)
    ensures c.border == SeverityColor(p.severity)
    ensures var text := CaptionText(p);
            c.text == text || exists k :: 1 <= k <= |text| - CaptionFloor && c.text == Cut(text, k)
    ensures Min(|CaptionText(p)|, CaptionFloor) <= |c.text| <= |CaptionText(p)|
    ensures measure(CaptionFont, CaptionText(p)) <= (canvasWidth - DashboardReserve) as real
            ==> c.text == CaptionText(p)
    ensures measure(CaptionFont, c.text) <= (canvasWidth - DashboardReserve) as real
            || |c.text| <= CaptionFloor
    ensures var text := CaptionText(p);
            forall k :: 1 <= k < |text| - |c.text| && 3 + k <= |text| ==>
              measure(CaptionFont, Cut(text, k)) > (canvasWidth - DashboardReserve) as real
              && |Cut(text, k)| > CaptionFloor
  {
    var text := CaptionText(p);
    var width := s => measure(CaptionFont, s);
    var maxWidth := (canvasWidth - DashboardReserve) as real;
    TruncateStopsAtFirstFit(text, width, maxWidth, CaptionFloor);
    Caption(Truncate(text, width, maxWidth, CaptionFloor), SeverityColor(p.severity))
  }

  /** `drawIssueItem` for the pair at 1-based position `number`. */
  function ItemFor(p: FeedbackPair, number: nat, measure: Measure): (item: IssueItem)
    ensures item.number == number
    ensures item.title == p.bodyPart
            || exists k :: 1 <= k <= |p.bodyPart| - ItemFloor && item.title == Cut(p.bodyPart, k)
    ensures Min(|p.bodyPart|, ItemFloor) <= |item.title| <= |p.bodyPart|
    ensures measure(ItemTitleFont, p.bodyPart) <= ItemTitleMaxWidth ==> item.title == p.bodyPart
    ensures measure(ItemTitleFont, item.title) <= ItemTitleMaxWidth || |item.title| <= ItemFloor
    ensures var fix := CheckPrefix + p.correction;
            item.fix == fix || exists k :: 1 <= k <= |fix| - ItemFloor && item.fix == Cut(fix, k)
    ensures Min(|CheckPrefix + p.correction|, ItemFloor) <= |item.fix| <= |CheckPrefix + p.correction|
    ensures measure(ItemFixFont, CheckPrefix + p.correction) <= ItemFixMaxWidth
            ==> item.fix == CheckPrefix + p.correction
    ensures measure(ItemFixFont, item.fix) <= ItemFixMaxWidth || |item.fix| <= ItemFloor
    ensures forall k :: 1 <= k < |p.bodyPart| - |item.title| && 3 + k <= |p.bodyPart| ==>
              measure(ItemTitleFont, Cut(p.bodyPart, k)) > ItemTitleMaxWidth
              && |Cut(p.bodyPart, k)| > ItemFloor
    ensures var fix := CheckPrefix + p.correction;
            forall k :: 1 <= k < |fix| - |item.fix| && 3 + k <= |fix| ==>
              measure(ItemFixFont, Cut(fix, k)) > ItemFixMaxWidth && |Cut(fix, k)| > ItemFloor
    ensures item.badge == SeverityBadgeText(p.severity) && item.color == SeverityColor(p.severity)
  {
    var titleWidth := s => measure(ItemTitleFont, s);
    var fixWidth := s => measure(ItemFixFont, s);
    var fix := CheckPrefix + p.correction;
    TruncateStopsAtFirstFit(p.bodyPart, titleWidth, ItemTitleMaxWidth, ItemFloor);
    TruncateStopsAtFirstFit(fix, fixWidth, ItemFixMaxWidth, ItemFloor);
    IssueItem(
      number,
      Truncate(p.bodyPart, titleWidth, ItemTitleMaxWidth, ItemFloor),
      Truncate(fix, fixWidth, ItemFixMaxWidth, ItemFloor),
      SeverityBadgeText(p.severity),
      SeverityColor(p.severity))
  }

  /** `topIssues.forEach((issue, index) => drawIssueItem(..., index + 1, ...))`. */
  function Items(top: seq<FeedbackPair>, measure: Measure): (items: seq<IssueItem>)
    ensures |items| == |top|
    ensures forall k :: 0 <= k < |items| ==> items[k] == ItemFor(top[k], k + 1, measure)
  {
    seq(|top|, k requires 0 <= k < |top| => ItemFor(top[k], k + 1, measure))
  }

  /** `drawAnalyticsDashboard`: the form-quality bars and the top issues. */
  function DashboardFor(a: Analysis, measure: Measure): (d: Dashboard)
    ensures d.barColor == ScoreColor(a.formScore)
    ensures d.gap.Some? <==> a.formScore < 10.0
    ensures d.gap.Some? ==> d.gap.value + a.formScore == 10.0
    ensures |d.items| == Min(TopCount, |a.pairs|)
    ensures forall k :: 0 <= k < |d.items| ==>
              && d.items[k].number == k + 1
              && d.items[k].badge == SeverityBadgeText(TopIssues(a.pairs)[k].severity)
              && d.items[k].color == SeverityColor(TopIssues(a.pairs)[k].severity)
    ensures forall k :: 0 <= k < |d.items| ==> d.items[k] == ItemFor(TopIssues(a.pairs)[k], k + 1, measure)
  {
    var gap := 10.0 - a.formScore;
    Dashboard(
      ScoreColor(a.formScore),
      if gap > 0.0 then Some(gap) else None,
      Items(TopIssues(a.pairs), measure))
  }

  /** `drawOverlay` for one animation frame. */
  function RenderFrame(a: Analysis, showOverlay: bool, selected: Option<nat>, t: real,
                       canvasWidth: int, measure: Measure): (f: Frame)
    ensures !showOverlay <==> f == Clear
    ensures showOverlay ==> f.badge == ScoreBadge(a.formScore, ScoreColor(a.formScore))
    ensures f.Drawn? ==> (f.dashboard.Some? <==> |a.pairs| > 0)
    ensures f.Drawn? && f.dashboard.Some? ==> f.dashboard.value == DashboardFor(a, measure)
    ensures f.Aborted? <==> showOverlay && ChooseCaption(a.pairs, selected, t) == UndefinedPair
    ensures f.Drawn? ==>
              f.caption == match ChooseCaption(a.pairs, selected, t)
                           case Chosen(p) => Some(CaptionFor(p, canvasWidth, measure))
                           case _ => None
  {
    if !showOverlay then Clear
    else
      var badge := ScoreBadge(a.formScore, ScoreColor(a.formScore));
      if |a.pairs| == 0 then
        assert LiveFrom(a.pairs, ActiveFlags(a.pairs, t), selected, 0) == [];
        Drawn(badge, None, None)
      else
        match ChooseCaption(a.pairs, selected, t)
        case UndefinedPair => Aborted(badge)
        case NoCaption => Drawn(badge, None, Some(DashboardFor(a, measure)))
        case Chosen(p) => Drawn(badge, Some(CaptionFor(p, canvasWidth, measure)), Some(DashboardFor(a, measure)))
  }

  /** With a valid selection the caption is the selected pair at any time. */
  lemma RenderShowsSelectedPair(a: Analysis, i: nat, t: real, canvasWidth: int, measure: Measure)
    requires i < |a.pairs|
    ensures RenderFrame(a, true, Some(i), t, canvasWidth, measure).Drawn?
    ensures RenderFrame(a, true, Some(i), t, canvasWidth, measure).caption
            == Some(CaptionFor(a.pairs[i], canvasWidth, measure))
  {
    SelectedPairIsCaption(a.pairs, i, t);
  }

  /** Without a selection the caption is the first active pair; no pair
      active means no caption, while badge and dashboard are still drawn. */
  lemma RenderShowsFirstActivePair(a: Analysis, t: real, canvasWidth: int, measure: Measure)
    ensures RenderFrame(a, true, None, t, canvasWidth, measure).Drawn?
    ensures RenderFrame(a, true, None, t, canvasWidth, measure).caption ==
              match FirstActive(ActiveFlags(a.pairs, t), 0)
              case None => None
              case Some(k) => Some(CaptionFor(a.pairs[k], canvasWidth, measure))
  {
    UnselectedCaptionIsFirstActive(a.pairs, t);
  }
}
