/** The playback state the overlay reads and the user's controls write:
    `jumpToIssue`, the five-second selection clear it schedules (an explicit
    event here), and the overlay toggle. */
module Session {
  import opened Common
  import opened Feedback
  import opened Timestamps
  import opened Overlay

  /** The video's position, `selectedIssue`, and `showOverlay`. */
  datatype Playback = Playback(currentTime: real, selected: Option<nat>, showOverlay: bool)

  /** `jumpToIssue(pair, index)`. Nothing happens without a video element or
      when the pair's time expression does not parse; otherwise the video
      seeks to the parsed start and the pair becomes the selection. */
  function JumpToIssue(st: Playback, videoAttached: bool, duration: real,
                       pair: FeedbackPair, index: nat): (r: Playback)
    ensures r.showOverlay == st.showOverlay
    ensures r == st || (r.currentTime >= 0.0 && r.selected == Some(index))
    ensures videoAttached && ParseTimestamp(pair.timestamp, duration).start >= 0.0 ==>
              r.currentTime == ParseTimestamp(pair.timestamp, duration).start && r.selected == Some(index)
    ensures (!videoAttached || (!IsSentinel(pair.timestamp) && FindMatch(pair.timestamp).None?)) ==> r == st
  {
    if !videoAttached then st
    else
      var span := ParseTimestamp(pair.timestamp, duration);
      if span.start >= 0.0 then st.(currentTime := span.start, selected := Some(index))
      else st
  }

  /** The timer a jump schedules, firing: `setSelectedIssue(null)`. It clears
      whatever is selected at that moment, including a later jump's choice. */
  function ExpireSelection(st: Playback): (r: Playback)
    ensures r.selected.None?
    ensures r.currentTime == st.currentTime && r.showOverlay == st.showOverlay
  {
    st.(selected := None)
  }

  /** The "Show/Hide Overlay" button: `setShowOverlay(!showOverlay)`. */
  function ToggleOverlay(st: Playback): (r: Playback)
    ensures r.showOverlay != st.showOverlay
    ensures r.currentTime == st.currentTime && r.selected == st.selected
  {
    st.(showOverlay := !st.showOverlay)
  }

  lemma ToggleTwiceRestores(st: Playback)
    ensures ToggleOverlay(ToggleOverlay(st)) == st
  {
  }

  /** A jump fails exactly on the expressions `parseTimestamp` rejects. */
  lemma JumpFailsOnlyOnUnparsable(st: Playback, duration: real, pair: FeedbackPair, index: nat)
    requires st.selected != Some(index)
    ensures JumpToIssue(st, true, duration, pair, index) == st <==>
              !IsSentinel(pair.timestamp) && FindMatch(pair.timestamp).None?
  {
  }

  /** After a jump the overlay captions the chosen pair, whatever its
      activation window says about the new position. */
  lemma JumpThenRenderShowsPair(st: Playback, a: Analysis, duration: real, index: nat,
                                canvasWidth: int, measure: Measure)
    requires index < |a.pairs| && st.showOverlay
    requires ParseTimestamp(a.pairs[index].timestamp, duration).start >= 0.0
    ensures var r := JumpToIssue(st, true, duration, a.pairs[index], index);
            var f := RenderFrame(a, r.showOverlay, r.selected, r.currentTime, canvasWidth, measure);
            f.Drawn? && f.caption == Some(CaptionFor(a.pairs[index], canvasWidth, measure))
  {
    var r := JumpToIssue(st, true, duration, a.pairs[index], index);
    RenderShowsSelectedPair(a, index, r.currentTime, canvasWidth, measure);
  }

  /** When the selection expires the caption falls back to time-based
      activation at the current position. */
  lemma ExpireThenRenderFallsBack(st: Playback, a: Analysis, canvasWidth: int, measure: Measure)
    requires st.showOverlay
    ensures var r := ExpireSelection(st);
            var f := RenderFrame(a, r.showOverlay, r.selected, r.currentTime, canvasWidth, measure);
            f.Drawn? &&
            f.caption == match FirstActive(ActiveFlags(a.pairs, st.currentTime), 0)
                         case None => None
                         case Some(k) => Some(CaptionFor(a.pairs[k], canvasWidth, measure))
  {
    RenderShowsFirstActivePair(a, st.currentTime, canvasWidth, measure);
  }

  /** Right after a jump the target pair is itself active, so an expiry
      before the video moves still finds an active pair, unless the pair's
      range is written backwards. */
  lemma JumpLandsInsideActivation(st: Playback, duration: real, pair: FeedbackPair, index: nat)
    requires ParseTimestamp(pair.timestamp, duration).start >= 0.0
    requires ParseTimestamp(pair.timestamp, duration).start <= ParseTimestamp(pair.timestamp, duration).end
    ensures IsIssueActiveAtTime(pair.timestamp, JumpToIssue(st, true, duration, pair, index).currentTime)
  {
    var span := ParseTimestamp(pair.timestamp, duration);
    ParsedWindowIsActive(pair.timestamp, span.start, duration);
  }
}
