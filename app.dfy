/**
 * The state app.js keeps between events: the 'onionPriceHistory' entry of localStorage and
 * the module-level currentCalculation (app.js:28), with the handlers that change them.
 */
module App {
  import opened Wrappers
  import opened Pricing
  import opened History

  /** `JSON.parse(localStorage.getItem('onionPriceHistory')) || []`: an absent entry reads as []. */
  function ReadHistory(blob: Option<seq<Calculation>>): seq<Calculation>
  {
    if blob.Some? then blob.value else []
  }

  class AppState {
    /** The localStorage entry; None while the key has never been written. */
    var stored: Option<seq<Calculation>>
    /** The calculation last shown by displayResults, which the save button stores. */
    var currentCalculation: Option<Calculation>

    /** A page load: storage survives from earlier visits, no calculation is shown yet. */
    constructor(persisted: Option<seq<Calculation>>)
      ensures stored == persisted && currentCalculation == None
    {
      stored := persisted;
      currentCalculation := None;
    }

    /** The stored list as every handler reads it. */
    function History(): seq<Calculation>
      reads this
    {
      ReadHistory(stored)
    }

    /**
     * The submit handler (app.js:150-168) with `now` the clock reading of calculateResults: a
     * rejected form changes nothing; an accepted one becomes the current calculation.
     */
    method Submit(rawName: string, swatLength: JsNumber, ceblokPerMeter: JsNumber,
                  swatWidth: JsNumber, totalSwat: JsNumber, marketPrice: JsNumber, now: int)
      returns (accepted: bool)
      modifies this`currentCalculation
      ensures accepted <==>
        (exists i :: 0 <= i < |rawName| && !IsJsWhitespace(rawName[i]))
        && IsPositiveFinite(swatLength) && IsPositiveFinite(ceblokPerMeter)
        && IsPositiveFinite(swatWidth) && IsPositiveFinite(totalSwat)
        && IsPositiveFinite(marketPrice)
      ensures !accepted ==> currentCalculation == old(currentCalculation)
      ensures accepted ==> currentCalculation == Some(CalculateResults(FormData(
        Trim(rawName), swatLength.value, ceblokPerMeter.value, swatWidth.value,
        totalSwat.value, marketPrice.value), now))
    {
      var form := Validate(rawName, swatLength, ceblokPerMeter, swatWidth, totalSwat, marketPrice);
      if form.None? {
        accepted := false;
        return;
      }
      currentCalculation := Some(CalculateResults(form.value, now));
      accepted := true;
    }

    /**
     * The save button (app.js:171-191): without a current calculation nothing is stored;
     * otherwise it is appended after the records already stored, which stay as they were.
     */
    method Save() returns (saved: bool)
      modifies this`stored
      ensures saved <==> currentCalculation.Some?
      ensures !saved ==> stored == old(stored)
      ensures saved ==> stored == Some(old(History()) + [currentCalculation.value])
      ensures saved && old(stored).None? ==> History() == [currentCalculation.value]
      ensures saved ==> currentCalculation.value in SortNewestFirst(History())
    {
      if currentCalculation.None? {
        saved := false;
        return;
      }
      var history := History();
      history := history + [currentCalculation.value];
      stored := Some(history);
      saved := true;
      assert currentCalculation.value in multiset(SortNewestFirst(History()));
    }

    /**
     * The list loadHistory displays (app.js:194-204): the stored records sorted newest first
     * by a stable sort. The stored entry is only read; the sort works on a fresh array.
     */
    method LoadHistory() returns (view: seq<Calculation>)
      ensures view == SortNewestFirst(History())
      ensures NewestFirst(view) && multiset(view) == multiset(History())
      ensures stored.None? ==> view == []
    {
      var h := History();
      var a := new Calculation[|h|](j requires 0 <= j < |h| => h[j]);
      var i := a.Length;
      assert a[..i] == h[..i];
      assert SortNewestFirst(h[i..]) == [] by {
        assert h[i..] == [];
      }
      while i > 0
        invariant 0 <= i <= a.Length == |h|
        invariant a[..i] == h[..i]
        invariant a[i..] == SortNewestFirst(h[i..])
      {
        assert a[..i - 1] == a[..i][..i - 1] == h[..i - 1];
        assert a[i - 1] == a[..i][i - 1] == h[i - 1];
        SinkInto(a, i - 1);
        SortStep(h, i - 1);
        i := i - 1;
      }
      assert a[..] == a[0..] && h[0..] == h;
      view := a[..];
    }

    /**
     * deleteHistoryItem as written (app.js:258-268): the index, taken from a row of the
     * sorted view, splices the raw stored list. An index outside the stored list or a declined
     * confirmation leaves storage untouched.
     */
    method DeleteHistoryItem(index: int, confirmed: bool) returns (removed: bool)
      modifies this`stored
      ensures removed <==> 0 <= index < |old(History())| && confirmed
      ensures !removed ==> stored == old(stored)
      ensures removed ==> stored == Some(RemoveAt(old(History()), index))
    {
      var history := History();
      removed := false;
      if 0 <= index < |history| {
        if !confirmed {
          return;
        }
        history := RemoveAt(history, index);
        stored := Some(history);
        removed := true;
      }
    }

    /**
     * The deletion the history tab means: resolve the index against the sorted view, remove
     * that row, and store the rest, so the next load shows the same list less the clicked row.
     */
    method DeleteDisplayed(index: int, confirmed: bool) returns (removed: bool)
      modifies this`stored
      ensures removed <==> 0 <= index < |old(History())| && confirmed
      ensures !removed ==> stored == old(stored)
      ensures removed ==> History() == RemoveAt(SortNewestFirst(old(History())), index)
      ensures removed ==> SortNewestFirst(History()) == History()
      ensures removed ==>
        multiset(History()) == multiset(old(History())) - multiset{SortNewestFirst(old(History()))[index]}
    {
      var history := History();
      removed := false;
      if 0 <= index < |history| {
        if !confirmed {
          return;
        }
        var view := SortNewestFirst(history);
        DisplayedDeleteRemovesClickedRow(history, index);
        stored := Some(RemoveAt(view, index));
        removed := true;
      }
    }
  }

  /**
   * One pass of the insertion sort behind loadHistory's `history.sort`: a[lo] moves right past
   * the strictly newer records of the already sorted a[lo + 1..], which shift left by one.
   */
  method SinkInto(a: array<Calculation>, lo: int)
    requires 0 <= lo < a.Length
    modifies a
    ensures a[..lo] == old(a[..lo])
    ensures a[lo..] == Insert(old(a[lo + 1..]), old(a[lo]))
  {
    var x := a[lo];
    ghost var v := a[lo + 1..];
    var j := ShiftNewer(a, lo, x);
    a[j] := x;
    SinkResult(v, x, j - lo, a[lo..]);
  }

  /**
   * The inner loop of an insertion pass: from lo on, each record strictly newer than x moves
   * one slot to the left; j is the slot left free for x.
   */
  method ShiftNewer(a: array<Calculation>, lo: int, x: Calculation) returns (j: int)
    requires 0 <= lo < a.Length
    modifies a
    ensures lo <= j < a.Length
    ensures forall m :: 0 <= m < lo ==> a[m] == old(a[m])
    ensures forall m :: lo <= m < j ==> a[m] == old(a[m + 1])
    ensures forall m :: j < m < a.Length ==> a[m] == old(a[m])
    ensures forall m :: lo < m <= j ==> old(a[m]).timestamp > x.timestamp
    ensures j + 1 == a.Length || old(a[j + 1]).timestamp <= x.timestamp
  {
    j := lo;
    while j + 1 < a.Length && a[j + 1].timestamp > x.timestamp
      invariant lo <= j < a.Length
      invariant forall m :: 0 <= m < lo ==> a[m] == old(a[m])
      invariant forall m :: lo <= m < j ==> a[m] == old(a[m + 1])
      invariant forall m :: j < m < a.Length ==> a[m] == old(a[m])
      invariant forall m :: lo < m <= j ==> old(a[m]).timestamp > x.timestamp
    {
      a[j] := a[j + 1];
      j := j + 1;
    }
  }
}
