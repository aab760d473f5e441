/**
 * Infinity-spool mode (extras/ace.py): `ACE_SET_INFINITY_SPOOL_ORDER` validates and saves the
 * order in which slots take over from each other, and `ACE_INFINITY_SPOOL` re-reads it, finds
 * where the current tool sits in it, picks the next ready slot around the circle, parks it and,
 * once the parking monitor resolves, saves the new tool and position only on success.
 */
module InfinitySpool {
  import opened Opt
  import opened Telemetry
  import opened PyText

  /** One place in the order: an empty place (`'none'`) or a slot number. */
  datatype Entry = NoneEntry | Slot(n: int)

  /** The saved variables the commands read and write, each with the default `.get` supplies. */
  datatype Saved = Saved(
    currentIndex: int,  // `ace_current_index`, default -1
    order: string,      // `ace_infsp_order`, default ''
    position: int)      // `ace_infsp_position`, default -1

  /** The normalisation applied to every item: `item.strip().lower()`. */
  function Normalize(item: string): string
  {
    Lower(Strip(item))
  }

  /** A slot number the set command admits. */
  predicate ValidEntry(e: Entry)
  {
    e.NoneEntry? || 0 <= e.n <= 3
  }

  /** What the set command saves: exactly four places, each empty or a slot 0..3. */
  predicate ValidOrder(order: seq<Entry>)
  {
    |order| == 4 && forall k :: 0 <= k < |order| ==> ValidEntry(order[k])
  }

  /** The text of one place: `'none'` or `str(slot)`. */
  function Show(e: Entry): (r: string)
    requires ValidEntry(e)
    ensures ',' !in r
  {
    if e.NoneEntry? then "none" else DigitString(e.n)
  }

  function ShowAll(order: seq<Entry>): (r: seq<string>)
    requires forall k :: 0 <= k < |order| ==> ValidEntry(order[k])
    ensures |r| == |order|
    ensures forall k :: 0 <= k < |order| ==> r[k] == Show(order[k])
  {
    seq(|order|, k requires 0 <= k < |order| => Show(order[k]))
  }

  /** The saved form of an order: the places joined with commas. */
  function Serialise(order: seq<Entry>): string
    requires forall k :: 0 <= k < |order| ==> ValidEntry(order[k])
  {
    Join(ShowAll(order), ',')
  }

  datatype OrderError =
    | OrderMissing                                // "ORDER parameter is required"
    | WrongCount(count: nat)                      // "Order must contain exactly 4 items"
    | OutOfRange(value: int, position: nat)       // "Slot number … is out of range (0-3)"
    | InvalidItem(item: string, position: nat)    // "Invalid value … Use slot number (0-3) or 'none'"

  /** The validation loop of the set command over normalised items; `position` is 1-based. */
  function ValidateItems(items: seq<string>, position: nat): (r: Result<seq<Entry>, OrderError>)
    ensures r.Ok? ==> |r.value| == |items| && forall k :: 0 <= k < |items| ==> ValidEntry(r.value[k])
    ensures r.Ok? ==> forall k :: 0 <= k < |items| ==> ItemReads(items[k], r.value[k])
    ensures r.Err? ==> (r.error.OutOfRange? || r.error.InvalidItem?) && r.error.position >= position
    decreases |items|
  {
    if items == [] then Ok([])
    else
      var rest := ValidateItems(items[1..], position + 1);
      var item := items[0];
      if item == "none" then
        if rest.Ok? then Ok([NoneEntry] + rest.value) else rest
      else
        match ParseInt(item)
        case None => Err(InvalidItem(item, position))
        case Some(n) =>
          if n < 0 || n > 3 then Err(OutOfRange(n, position))
          else if rest.Ok? then Ok([Slot(n)] + rest.value) else rest
  }

  datatype SetOutcome = Rejected(error: OrderError) | Accepted(order: seq<Entry>)

  /** The comma-separated pieces of the order, each normalised. */
  function Items(orderStr: string): (r: seq<string>)
    ensures |r| == |Split(orderStr, ',')|
    ensures forall k :: 0 <= k < |r| ==> r[k] == Normalize(Split(orderStr, ',')[k])
  {
    var pieces := Split(orderStr, ',');
    seq(|pieces|, k requires 0 <= k < |pieces| => Normalize(pieces[k]))
  }

  /** `cmd_ACE_SET_INFINITY_SPOOL_ORDER`: the outcome and the saved variables afterwards. */
  function SetOrder(saved: Saved, orderStr: string): (r: (SetOutcome, Saved))
    ensures r.0.Rejected? ==> r.1 == saved
    ensures r.0.Accepted? ==> ValidOrder(r.0.order) && r.1 == saved.(order := Serialise(r.0.order), position := 0)
    ensures orderStr == [] <==> r.0 == Rejected(OrderMissing)
    ensures orderStr != [] && |Split(orderStr, ',')| != 4 ==> r.0 == Rejected(WrongCount(|Split(orderStr, ',')|))
  {
    if orderStr == [] then (Rejected(OrderMissing), saved)
    else
      var items := Items(orderStr);
      if |items| != 4 then (Rejected(WrongCount(|items|)), saved)
      else
        match ValidateItems(items, 1)
        case Err(e) => (Rejected(e), saved)
        case Ok(order) => (Accepted(order), saved.(order := Serialise(order), position := 0))
  }

  /** The parse of one item in `cmd_ACE_INFINITY_SPOOL`: `'none'` or `int(item)`, with no range check. */
  function ParseItem(item: string): Option<Entry>
  {
    var t := Normalize(item);
    if t == "none" then Some(NoneEntry)
    else match ParseInt(t) case None => None case Some(n) => Some(Slot(n))
  }

  /** The parse loop of `cmd_ACE_INFINITY_SPOOL`: any item that `int()` rejects fails the whole order. */
  function ParseItems(items: seq<string>): (r: Option<seq<Entry>>)
    ensures r.Some? ==> |r.value| == |items|
    ensures r.Some? <==> forall k :: 0 <= k < |items| ==> ParseItem(items[k]).Some?
    decreases |items|
  {
    if items == [] then Some([])
    else
      var head := ParseItem(items[0]);
      var rest := ParseItems(items[1..]);
      assert forall k :: 1 <= k < |items| ==> items[k] == items[1..][k - 1];
      if head.Some? && rest.Some? then Some([head.value] + rest.value) else None
  }

  function ParseOrder(orderStr: string): Option<seq<Entry>>
  {
    ParseItems(Split(orderStr, ','))
  }

  /** `'none'` is left as it is by the normalisation. */
  lemma NoneNormal()
    ensures Normalize("none") == "none"
  {
    var none := "none";
    assert none[0] == 'n' && none[1] == 'o' && none[2] == 'n' && none[3] == 'e';
    StripLowerKeeps(none);
  }

  /** The text of a valid place reads back as that place. */
  lemma ShowParses(e: Entry)
    requires ValidEntry(e)
    ensures Normalize(Show(e)) == Show(e)
    ensures e.NoneEntry? <==> Show(e) == "none"
    ensures e.Slot? ==> ParseInt(Show(e)) == Some(e.n)
  {
    if e.NoneEntry? {
      NoneNormal();
    } else {
      DigitStringRoundTrip(e.n);
    }
  }

  /** The text of a valid place parses back to that place. */
  lemma ShowItemParses(e: Entry)
    requires ValidEntry(e)
    ensures ParseItem(Show(e)) == Some(e)
  {
    ShowParses(e);
  }

  lemma ParseShown(order: seq<Entry>)
    requires forall k :: 0 <= k < |order| ==> ValidEntry(order[k])
    ensures ParseItems(ShowAll(order)) == Some(order)
  {
    var shown := ShowAll(order);
    forall k | 0 <= k < |order| ensures ParseItem(shown[k]) == Some(order[k]) {
      ShowItemParses(order[k]);
    }
    ParseItemsAll(shown, order);
  }

  /** Items that each parse to their place parse together to the whole order. */
  lemma {:induction false} ParseItemsAll(items: seq<string>, order: seq<Entry>)
    requires |items| == |order| && forall k :: 0 <= k < |items| ==> ParseItem(items[k]) == Some(order[k])
    ensures ParseItems(items) == Some(order)
    decreases |items|
  {
    if items != [] {
      assert forall k :: 0 <= k < |items| - 1 ==> items[1..][k] == items[k + 1] && order[1..][k] == order[k + 1];
      ParseItemsAll(items[1..], order[1..]);
      ParseItemsCons(items, order[0], order[1..]);
      HeadTail(order);
    }
  }

  lemma ParseItemsCons(items: seq<string>, e: Entry, rest: seq<Entry>)
    requires items != [] && ParseItem(items[0]) == Some(e) && ParseItems(items[1..]) == Some(rest)
    ensures ParseItems(items) == Some([e] + rest)
  {
  }

  lemma HeadTail<T>(s: seq<T>)
    requires s != []
    ensures [s[0]] + s[1..] == s
  {
  }

  /** Every order of valid places survives serialising and re-parsing unchanged. */
  lemma SerialiseRoundTrip(order: seq<Entry>)
    requires |order| >= 1 && forall k :: 0 <= k < |order| ==> ValidEntry(order[k])
    ensures ParseOrder(Serialise(order)) == Some(order)
  {
    SplitJoin(ShowAll(order), ',');
    ParseShown(order);
  }

  /** What the set command saves is read back by the spool command as the order it accepted. */
  lemma SavedOrderReparses(saved: Saved, orderStr: string)
    ensures var (outcome, after) := SetOrder(saved, orderStr);
            outcome.Accepted? ==> ParseOrder(after.order) == Some(outcome.order)
  {
    var (outcome, after) := SetOrder(saved, orderStr);
    if outcome.Accepted? {
      SerialiseRoundTrip(outcome.order);
    }
  }

  lemma ValidateShown(order: seq<Entry>, position: nat)
    requires forall k :: 0 <= k < |order| ==> ValidEntry(order[k])
    ensures ValidateItems(ShowAll(order), position) == Ok(order)
  {
    var shown := ShowAll(order);
    forall k | 0 <= k < |order| ensures ItemReads(shown[k], order[k]) {
      ShowParses(order[k]);
    }
    ValidateItemsAll(shown, order, position);
  }

  /** An item the set command accepts as the place `e`. */
  predicate ItemReads(item: string, e: Entry)
  {
    if e.NoneEntry? then item == "none" else item != "none" && ParseInt(item) == Some(e.n) && 0 <= e.n <= 3
  }

  /** An item the set command accepts as some place. */
  predicate Readable(item: string)
  {
    item == "none" || (ParseInt(item).Some? && 0 <= ParseInt(item).value <= 3)
  }

  lemma ReadableReads(item: string)
    ensures Readable(item) <==> exists e :: ItemReads(item, e)
  {
    if item == "none" {
      assert ItemReads(item, NoneEntry);
    } else if Readable(item) {
      assert ItemReads(item, Slot(ParseInt(item).value));
    }
  }

  /** The `k`-th item is the first the set command cannot accept. */
  predicate FirstUnreadable(items: seq<string>, k: int)
  {
    0 <= k < |items| && !Readable(items[k]) && forall j :: 0 <= j < k ==> Readable(items[j])
  }

  /** The message for an item that is not accepted: not a number at all, or a number out of range. */
  predicate Reports(error: OrderError, item: string)
  {
    match error
    case InvalidItem(text, _) => text == item && item != "none" && ParseInt(item).None?
    case OutOfRange(n, _) => item != "none" && ParseInt(item) == Some(n) && !(0 <= n <= 3)
    case _ => false
  }

  /**
   * The validation accepts exactly when every item reads as a place, and otherwise reports the
   * first item that does not, at its own 1-based position and with the message its kind calls for.
   */
  lemma {:induction false} ValidateItemsRejects(items: seq<string>, position: nat)
    ensures ValidateItems(items, position).Ok? <==> forall k :: 0 <= k < |items| ==> Readable(items[k])
    ensures var r := ValidateItems(items, position);
            r.Err? ==> exists k :: FirstUnreadable(items, k) && r.error.position == position + k && Reports(r.error, items[k])
    decreases |items|
  {
    if items != [] {
      ValidateItemsRejects(items[1..], position + 1);
      var r := ValidateItems(items, position);
      var rest := ValidateItems(items[1..], position + 1);
      assert forall k :: 1 <= k < |items| ==> items[1..][k - 1] == items[k];
      if !Readable(items[0]) {
        assert FirstUnreadable(items, 0);
      } else if rest.Err? {
        var k :| FirstUnreadable(items[1..], k) && rest.error.position == position + 1 + k && Reports(rest.error, items[1..][k]);
        assert FirstUnreadable(items, k + 1);
      }
    }
  }

  /**
   * Four pieces are accepted exactly when each normalised piece reads as a place, and then each
   * reads as the place it is given; otherwise the first piece that does not is reported.
   */
  lemma SetOrderReads(saved: Saved, orderStr: string)
    ensures var (r, items) := (SetOrder(saved, orderStr).0, Items(orderStr));
            && (r.Accepted? ==> |items| == 4 && forall k :: 0 <= k < 4 ==> ItemReads(items[k], r.order[k]))
            && (orderStr != [] && |items| == 4 ==> (r.Accepted? <==> forall k :: 0 <= k < 4 ==> Readable(items[k])))
            && (orderStr != [] && |items| == 4 && r.Rejected? ==>
                  exists k :: FirstUnreadable(items, k) && r.error.position == k + 1 && Reports(r.error, items[k]))
  {
    ValidateItemsRejects(Items(orderStr), 1);
  }

  /** Items that each read as their place are accepted together as the whole order. */
  lemma {:induction false} ValidateItemsAll(items: seq<string>, order: seq<Entry>, position: nat)
    requires |items| == |order| && forall k :: 0 <= k < |items| ==> ItemReads(items[k], order[k])
    ensures ValidateItems(items, position) == Ok(order)
    decreases |items|
  {
    if items != [] {
      assert forall k :: 0 <= k < |items| - 1 ==> items[1..][k] == items[k + 1] && order[1..][k] == order[k + 1];
      ValidateItemsAll(items[1..], order[1..], position + 1);
      assert ItemReads(items[0], order[0]);
      HeadTail(order);
      if order[0].NoneEntry? {
        assert items[0] == "none";
        assert ValidateItems(items, position) == Ok([NoneEntry] + order[1..]);
      } else {
        assert items[0] != "none" && ParseInt(items[0]) == Some(order[0].n);
        assert ValidateItems(items, position) == Ok([Slot(order[0].n)] + order[1..]);
      }
    }
  }

  /** Setting the saved text of a valid order again is accepted and saves the same order. */
  lemma ValidOrderAccepted(saved: Saved, order: seq<Entry>)
    requires ValidOrder(order)
    ensures SetOrder(saved, Serialise(order)).0 == Accepted(order)
  {
    var shown := ShowAll(order);
    var text := Serialise(order);
    SplitJoin(shown, ',');
    var pieces := Split(text, ',');
    assert pieces == shown && |pieces| == 4;
    assert text == shown[0] + [','] + Join(shown[1..], ',');
    NormalizeShown(order);
    ValidateShown(order, 1);
  }

  /** The normalisation leaves the text of valid places unchanged. */
  lemma NormalizeShown(order: seq<Entry>)
    requires forall k :: 0 <= k < |order| ==> ValidEntry(order[k])
    ensures var shown := ShowAll(order);
            seq(|shown|, k requires 0 <= k < |shown| => Normalize(shown[k])) == shown
  {
    var shown := ShowAll(order);
    forall k | 0 <= k < |shown| ensures Normalize(shown[k]) == shown[k] {
      ShowParses(order[k]);
    }
  }

  /** The first place holding slot `was`, or -1 (the `enumerate` search). */
  function FindFrom(order: seq<Entry>, was: int, i: nat): (r: int)
    requires i <= |order|
    ensures r == -1 || i <= r < |order|
    ensures r >= 0 ==> order[r] == Slot(was) && forall k :: i <= k < r ==> order[k] != Slot(was)
    ensures r == -1 ==> forall k :: i <= k < |order| ==> order[k] != Slot(was)
    decreases |order| - i
  {
    if i == |order| then -1
    else if order[i] == Slot(was) then i
    else FindFrom(order, was, i + 1)
  }

  /**
   * Where the scan starts: the saved position when it holds the current tool, else the first
   * place holding it, else -1 (the scan then starts at place 0).
   */
  function StartIndex(order: seq<Entry>, was: int, savedPosition: int): (r: int)
    ensures -1 <= r < |order|
    ensures r >= 0 ==> order[r] == Slot(was)
    ensures r == -1 <==> Slot(was) !in order
    ensures 0 <= savedPosition < |order| && order[savedPosition] == Slot(was) ==> r == savedPosition
    ensures !(0 <= savedPosition < |order| && order[savedPosition] == Slot(was)) && r >= 0 ==>
              Slot(was) !in order[..r]
  {
    if 0 <= savedPosition < |order| && order[savedPosition] == Slot(was) then savedPosition
    else
      var r := FindFrom(order, was, 0);
      assert r >= 0 ==> forall k :: 0 <= k < r ==> order[..r][k] != Slot(was);
      r
  }

  /** The place the scan examines at step `i`: `(start + 1 + i) % len(order)`. */
  function Probe(start: int, i: nat, n: nat): (p: nat)
    requires n > 0 && start >= -1
    ensures p < n
  {
    (start + 1 + i) % n
  }

  /** A place the scan passes over: empty, or a slot whose status is readable and not ready. */
  predicate Passed(order: seq<Entry>, info: Info, p: nat)
    requires p < |order|
  {
    order[p].NoneEntry? || (SlotStatus(info, order[p].n).Some? && SlotStatus(info, order[p].n) != Some(Ready))
  }

  datatype ScanResult = Found(tool: int, position: nat) | NoneReady | LookupRaised(slot: int)

  /** The scan from step `i` on; a slot whose status lookup raises ends it with the exception. */
  function Scan(order: seq<Entry>, info: Info, start: int, i: nat): (r: ScanResult)
    requires |order| > 0 && -1 <= start < |order| && i <= |order|
    ensures r.Found? ==> r.position < |order| && order[r.position] == Slot(r.tool) && SlotStatus(info, r.tool) == Some(Ready)
    ensures r.LookupRaised? ==> Slot(r.slot) in order && SlotStatus(info, r.slot).None?
    decreases |order| - i
  {
    if i == |order| then NoneReady
    else
      var p := Probe(start, i, |order|);
      match order[p]
      case NoneEntry => Scan(order, info, start, i + 1)
      case Slot(n) =>
        var status := SlotStatus(info, n);
        if status.None? then LookupRaised(n)
        else if status.value == Ready then Found(n, p)
        else Scan(order, info, start, i + 1)
  }

  /** The scan stops at the first probe it does not pass over; every earlier probe was passed. */
  lemma {:induction false} ScanStopsAtFirst(order: seq<Entry>, info: Info, start: int, i: nat)
    requires |order| > 0 && -1 <= start < |order| && i <= |order|
    ensures Scan(order, info, start, i) == NoneReady ==>
              forall k :: i <= k < |order| ==> Passed(order, info, Probe(start, k, |order|))
    ensures Scan(order, info, start, i).Found? ==>
              exists k :: i <= k < |order| && Probe(start, k, |order|) == Scan(order, info, start, i).position
                && forall j :: i <= j < k ==> Passed(order, info, Probe(start, j, |order|))
    decreases |order| - i
  {
    if i < |order| {
      var p := Probe(start, i, |order|);
      if Passed(order, info, p) {
        ScanStopsAtFirst(order, info, start, i + 1);
      }
    }
  }

  /** The probes of one full round visit every place of the order. */
  lemma ProbesCover(start: int, n: nat, j: nat)
    requires n > 0 && -1 <= start < n && j < n
    ensures exists k :: 0 <= k < n && Probe(start, k, n) == j
  {
    var s := start + 1;
    if j >= s {
      ModBelow(j, n);
      assert Probe(start, j - s, n) == j;
    } else {
      ModWrap(j + n, n);
      assert Probe(start, j - s + n, n) == j;
    }
  }

  lemma ModBelow(a: int, n: int)
    requires 0 <= a < n
    ensures a % n == a
  {
  }

  lemma ModWrap(a: int, n: int)
    requires 0 < n <= a < 2 * n
    ensures a % n == a - n
  {
  }

  /** No ready slot is found only when every place is empty or holds a slot that is not ready. */
  lemma NoneReadyMeansNoneReady(order: seq<Entry>, info: Info, start: int)
    requires |order| > 0 && -1 <= start < |order|
    requires Scan(order, info, start, 0) == NoneReady
    ensures forall j :: 0 <= j < |order| ==> Passed(order, info, j)
  {
    ScanStopsAtFirst(order, info, start, 0);
    forall j | 0 <= j < |order| ensures Passed(order, info, j) {
      ProbesCover(start, |order|, j);
    }
  }

  datatype SpoolOutcome =
    | Disabled                    // infinity spool mode is off
    | ToolNotSet                  // no current tool
    | OrderNotSet                 // no saved order
    | BadOrder                    // "Invalid order format"
    | SlotLookupFailed(slot: int) // a slot status lookup raised
    | NoReadySlot                 // "No more ready slots available in order"
    | SlotNotReadyAbort(tool: int)// the re-check of the chosen slot failed
    | Parking(tool: int, position: nat) // the chosen slot is being parked

  /** `cmd_ACE_INFINITY_SPOOL` up to the start of parking. */
  function Select(enabled: bool, saved: Saved, info: Info): (r: SpoolOutcome)
    ensures r.Parking? ==>
              && saved.currentIndex != -1 && ParseOrder(saved.order).Some?
              && var order := ParseOrder(saved.order).value;
              && r.position < |order| && order[r.position] == Slot(r.tool) && SlotStatus(info, r.tool) == Some(Ready)
    ensures !r.SlotNotReadyAbort?
    ensures !enabled <==> r == Disabled
    ensures enabled && saved.currentIndex == -1 <==> r == ToolNotSet
  {
    if !enabled then Disabled
    else if saved.currentIndex == -1 then ToolNotSet
    else if saved.order == [] then OrderNotSet
    else match ParseOrder(saved.order)
      case None => BadOrder
      case Some(order) =>
        assert |order| == |Split(saved.order, ',')| >= 1;
        var start := StartIndex(order, saved.currentIndex, saved.position);
        match Scan(order, info, start, 0)
        case LookupRaised(n) => SlotLookupFailed(n)
        case NoneReady => NoReadySlot
        case Found(tool, position) =>
          if SlotStatus(info, tool) != Some(Ready) then SlotNotReadyAbort(tool)
          else Parking(tool, position)
  }

  /** The maximum wait of the parking monitor (milliseconds). */
  const MaxParkWait: int := 30000

  /** One run of `check_parking_status`: time since monitoring started and the session flags. */
  datatype Tick = Tick(elapsed: int, parkInProgress: bool, parkError: bool)

  datatype Resolution = ParkSucceeded | ParkErrored | ParkTimedOut | StillParking

  /**
   * The monitor timer: an error flag resolves as failure, a cleared in-progress flag as success,
   * more than 30 s as a timeout (which also clears in-progress and sets the error); otherwise
   * it checks again. The first resolution stops the timer, so at most one resolves.
   */
  function Watch(ticks: seq<Tick>): (r: Resolution)
    decreases |ticks|
  {
    if ticks == [] then StillParking
    else if ticks[0].parkError then ParkErrored
    else if !ticks[0].parkInProgress then ParkSucceeded
    else if ticks[0].elapsed > MaxParkWait then ParkTimedOut
    else Watch(ticks[1..])
  }

  /** Success is resolved only at a tick showing the session ended without error, after ticks that showed it running. */
  lemma {:induction false} WatchSucceeds(ticks: seq<Tick>)
    ensures Watch(ticks) == ParkSucceeded <==>
              exists k :: 0 <= k < |ticks| && !ticks[k].parkInProgress && !ticks[k].parkError
                && forall j :: 0 <= j < k ==> ticks[j].parkInProgress && !ticks[j].parkError && ticks[j].elapsed <= MaxParkWait
    decreases |ticks|
  {
    if ticks != [] {
      WatchSucceeds(ticks[1..]);
      if ticks[0].parkInProgress && !ticks[0].parkError && ticks[0].elapsed <= MaxParkWait {
        if Watch(ticks) == ParkSucceeded {
          var k :| 0 <= k < |ticks| - 1 && !ticks[1..][k].parkInProgress && !ticks[1..][k].parkError
                && forall j :: 0 <= j < k ==> ticks[1..][j].parkInProgress && !ticks[1..][j].parkError && ticks[1..][j].elapsed <= MaxParkWait;
          assert !ticks[k + 1].parkInProgress && !ticks[k + 1].parkError;
          assert forall j :: 0 <= j < k + 1 ==> ticks[j].parkInProgress && !ticks[j].parkError && ticks[j].elapsed <= MaxParkWait by {
            forall j | 0 <= j < k + 1 ensures ticks[j].parkInProgress && !ticks[j].parkError && ticks[j].elapsed <= MaxParkWait {
              if j > 0 {
                assert ticks[j] == ticks[1..][j - 1];
              }
            }
          }
        } else {
          forall k | 0 <= k < |ticks| && !ticks[k].parkInProgress && !ticks[k].parkError
            ensures !forall j :: 0 <= j < k ==> ticks[j].parkInProgress && !ticks[j].parkError && ticks[j].elapsed <= MaxParkWait
          {
            if forall j :: 0 <= j < k ==> ticks[j].parkInProgress && !ticks[j].parkError && ticks[j].elapsed <= MaxParkWait {
              assert k > 0;
              assert ticks[1..][k - 1] == ticks[k];
              assert forall j :: 0 <= j < k - 1 ==> ticks[1..][j] == ticks[j + 1];
            }
          }
        }
      }
    }
  }

  /** `on_park_complete` saves the new tool and position; `on_park_error` and an unresolved wait save nothing. */
  function SaveOnResolution(saved: Saved, tool: int, position: nat, ticks: seq<Tick>): (r: (Resolution, Saved))
    ensures r.0 == Watch(ticks)
    ensures r.0 == ParkSucceeded ==> r.1 == saved.(currentIndex := tool, position := position)
    ensures r.0 != ParkSucceeded ==> r.1 == saved
    ensures r.1.order == saved.order
  {
    var res := Watch(ticks);
    if res == ParkSucceeded then (res, saved.(currentIndex := tool, position := position)) else (res, saved)
  }

  /**
   * A start the device refuses clears in-progress without setting the error, so the monitor
   * counts it as success and saves the new tool.
   */
  lemma RefusedStartSaves(saved: Saved, tool: int, position: nat, elapsed: int, later: seq<Tick>)
    ensures SaveOnResolution(saved, tool, position, [Tick(elapsed, false, false)] + later) ==
              (ParkSucceeded, saved.(currentIndex := tool, position := position))
  {
  }
}
