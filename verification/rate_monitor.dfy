/** The change detector of UserBookRelation.save: the `_rate` slot an instance keeps
    between saves, and the two flags each save exposes, `update_rate` and
    `set_rating_done`. Whether the book's rating is then recomputed is decided here;
    the recomputation itself is in module Rating. */
module RateMonitor {
  import opened Wrappers

  /** The memory of one in-memory relation instance: the last rate it observed (an unset
      `_rate` slot becomes None on the first save, so the two behave alike) and whether
      the instance has a primary key yet. */
  datatype Monitor = Monitor(lastRate: Option<int>, persisted: bool)

  /** An instance built in memory and never saved. */
  const Unsaved: Monitor := Monitor(None, false)

  /** An instance fetched from the database: it has a key but has observed nothing. */
  const Loaded: Monitor := Monitor(None, true)

  /** What a save leaves behind: the instance's memory and its two flags. */
  datatype SaveResult = SaveResult(monitor: Monitor, updateRate: bool, setRatingDone: bool)

  /** One call of save with the instance's current `rate`. `setRatingDone` is true exactly
      when the book's rating is recomputed. */
  function Save(m: Monitor, rate: Option<int>): (r: SaveResult)
    ensures r.monitor.persisted
    ensures r.updateRate <==> rate.Some? && rate != m.lastRate
    ensures r.setRatingDone <==> !m.persisted || r.updateRate
    ensures rate.Some? ==> r.monitor.lastRate == rate
    ensures rate.None? ==> r.monitor.lastRate == m.lastRate
  {
    var changed := m.lastRate != rate && rate.Some?;
    SaveResult(Monitor(if changed then rate else m.lastRate, true), changed, !m.persisted || changed)
  }

  /** The last present rate in a sequence of saved rates, None when none was present. */
  function LastPresent(history: seq<Option<int>>): Option<int> {
    if |history| == 0 then None
    else if history[|history| - 1].Some? then history[|history| - 1]
    else LastPresent(history[..|history| - 1])
  }

  /** The instance's memory after saving the rates of `history` one after another. */
  function Replay(m: Monitor, history: seq<Option<int>>): Monitor {
    if |history| == 0 then m
    else Save(Replay(m, history[..|history| - 1]), history[|history| - 1]).monitor
  }

  /** After any run of saves the slot holds the last present rate saved, or what it held
      before the run when every saved rate was null; the instance is persisted once it
      has been saved at least once. */
  lemma {:induction false} SlotIsLastPresentRate(m: Monitor, history: seq<Option<int>>)
    ensures Replay(m, history).lastRate == (if LastPresent(history).Some? then LastPresent(history) else m.lastRate)
    ensures Replay(m, history).persisted <==> m.persisted || |history| > 0
    decreases |history|
  {
    if |history| > 0 {
      SlotIsLastPresentRate(m, history[..|history| - 1]);
    }
  }

  /** On an instance that was created in memory and then saved with `history`, the next
      save sets `update_rate` exactly when its rate is present and differs from the last
      present rate saved before, and recomputes the rating exactly when it is the first
      save or `update_rate` is set. */
  lemma {:induction false} UpdateRateIffRateChanged(history: seq<Option<int>>, rate: Option<int>)
    ensures Save(Replay(Unsaved, history), rate).updateRate <==> rate.Some? && rate != LastPresent(history)
    ensures Save(Replay(Unsaved, history), rate).setRatingDone
      <==> |history| == 0 || (rate.Some? && rate != LastPresent(history))
  {
    SlotIsLastPresentRate(Unsaved, history);
  }

  /** On an instance fetched from the database nothing has been observed, so the first save
      sets `update_rate` whenever the rate is present, even if it equals the stored rate. */
  lemma LoadedInstanceReportsStoredRate(v: int)
    ensures Save(Loaded, Some(v)).updateRate
    ensures Save(Loaded, Some(v)).setRatingDone
    ensures !Save(Loaded, None).setRatingDone
  {
  }

  /** Saving the same present rate twice in a row: the second save reports no change and
      does not recompute the rating. */
  lemma SameRateTwice(m: Monitor, v: int)
    ensures !Save(Save(m, Some(v)).monitor, Some(v)).updateRate
    ensures !Save(Save(m, Some(v)).monitor, Some(v)).setRatingDone
  {
  }

  /** Creating a relation without a rate, toggling `like`, setting rate 3, toggling `like`
      again: the flags are (update_rate, set_rating_done) = (false, true), (false, false),
      (true, true), (false, false). */
  lemma LikeThenRateScenario()
    ensures var s1 := Save(Unsaved, None);
            var s2 := Save(s1.monitor, None);
            var s3 := Save(s2.monitor, Some(3));
            var s4 := Save(s3.monitor, Some(3));
            && !s1.updateRate && s1.setRatingDone
            && !s2.updateRate && !s2.setRatingDone
            && s3.updateRate && s3.setRatingDone
            && !s4.updateRate && !s4.setRatingDone
  {
  }
}
