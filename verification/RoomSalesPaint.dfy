/** The local paint draft for room availability: strokes, range fill, undo and reset. */
module RoomSalesPaint {
  import opened Common
  import opened Text
  import opened Calendar

  datatype Mode = FreeSale | StopSale | OnRequest | Limited

  /** One room type on one night, as the calendar knows it. */
  datatype Target = Target(roomTypeId: string, stayDate: string, version: Option<nat>)

  datatype DraftCell = DraftCell(roomTypeId: string, stayDate: string, version: Option<nat>, mode: Mode, salesCap: Option<int>)

  /** `salesCap` and `deadlineHours` are the typed texts read by `Number`, when that is an integer. */
  datatype Draft = Draft(
    mode: Option<Mode>,
    salesCap: Option<int>,
    deadlineHours: Option<int>,
    owner: string,
    escalation: string,
    allRoomTypes: bool,
    roomTypeIds: seq<string>,
    from: string,
    to: string,
    weekdays: seq<string>,
    cells: seq<DraftCell>,
    undo: seq<seq<DraftCell>>)

  datatype Reason = ChooseMode | NeedsCap | NeedsDeadline | NeedsOwner | NeedsEscalation

  predicate Within(n: Option<int>, low: int, high: int) {
    n.Some? && low <= n.value <= high
  }

  function PaintBlockedReason(draft: Draft): Option<Reason> {
    if draft.mode.None? then Some(ChooseMode)
    else if draft.mode.value == Limited && !Within(draft.salesCap, 1, 9999) then Some(NeedsCap)
    else if draft.mode.value == OnRequest && !Within(draft.deadlineHours, 1, 168) then Some(NeedsDeadline)
    else if draft.mode.value == OnRequest && |Trim(draft.owner)| < 2 then Some(NeedsOwner)
    else if draft.mode.value == OnRequest && |Trim(draft.escalation)| < 3 then Some(NeedsEscalation)
    else None
  }

  function Cap(draft: Draft): Option<int> {
    if draft.mode == Some(Limited) then draft.salesCap else None
  }

  function CellKey(t: Target): string {
    t.roomTypeId + "|" + t.stayDate
  }

  predicate Covers(c: DraftCell, room: string, date: string) {
    c.roomTypeId == room && c.stayDate == date
  }

  function FindCell(cells: seq<DraftCell>, room: string, date: string): Option<DraftCell> {
    if cells == [] then None
    else if Covers(cells[0], room, date) then Some(cells[0])
    else FindCell(cells[1..], room, date)
  }

  function Without(cells: seq<DraftCell>, room: string, date: string): seq<DraftCell> {
    Filter((c: DraftCell) => !Covers(c, room, date), cells)
  }

  function Assigned(t: Target, mode: Mode, cap: Option<int>): DraftCell {
    DraftCell(t.roomTypeId, t.stayDate, t.version, mode, cap)
  }

  predicate Has(cell: Option<DraftCell>, mode: Mode, cap: Option<int>) {
    cell.Some? && cell.value.mode == mode && cell.value.salesCap == cap
  }

  datatype Stroke = Stroke(cells: seq<DraftCell>, seen: set<string>, changed: bool)

  /** One target of a stroke. */
  function Touch(s: Stroke, t: Target, mode: Mode, cap: Option<int>): Stroke {
    if CellKey(t) in s.seen then s
    else if Has(FindCell(s.cells, t.roomTypeId, t.stayDate), mode, cap) then s.(seen := s.seen + {CellKey(t)})
    else Stroke(Without(s.cells, t.roomTypeId, t.stayDate) + [Assigned(t, mode, cap)], s.seen + {CellKey(t)}, true)
  }

  function TouchAll(s: Stroke, targets: seq<Target>, mode: Mode, cap: Option<int>): Stroke {
    if targets == [] then s else Touch(TouchAll(s, targets[..|targets| - 1], mode, cap), targets[|targets| - 1], mode, cap)
  }

  function Painted(draft: Draft, targets: seq<Target>, seen: set<string>): Draft {
    if PaintBlockedReason(draft).Some? then draft
    else
      var s := TouchAll(Stroke(draft.cells, seen, false), targets, draft.mode.value, Cap(draft));
      if s.changed then draft.(cells := s.cells, undo := draft.undo + [draft.cells]) else draft
  }

  /** `paintStroke`; the caller's stroke set comes back with the cells this call entered. */
  method PaintStroke(draft: Draft, targets: seq<Target>, stroke: set<string>) returns (painted: Draft, seen: set<string>)
    ensures painted == Painted(draft, targets, stroke)
    ensures seen == if PaintBlockedReason(draft).Some? then stroke else stroke + (set t | t in targets :: CellKey(t))
  {
    if PaintBlockedReason(draft).Some? {
      return draft, stroke;
    }
    hide FindCell, Without, Has, PaintBlockedReason;
    var mode := draft.mode.value;
    var cap := if mode == Limited then draft.salesCap else None;
    var next := draft.cells;
    var changed := false;
    seen := stroke;
    for i := 0 to |targets|
      invariant Stroke(next, seen, changed) == TouchAll(Stroke(draft.cells, stroke, false), targets[..i], mode, cap)
    {
      assert targets[..i + 1] == targets[..i] + [targets[i]];
      var t := targets[i];
      var key := CellKey(t);
      if key !in seen {
        seen := seen + {key};
        var previous := FindCell(next, t.roomTypeId, t.stayDate);
        if !Has(previous, mode, cap) {
          changed := true;
          next := Without(next, t.roomTypeId, t.stayDate) + [Assigned(t, mode, cap)];
        }
      }
    }
    assert targets[..|targets|] == targets;
    SeenAfter(Stroke(draft.cells, stroke, false), targets, mode, cap);
    painted := if changed then draft.(cells := next, undo := draft.undo + [draft.cells]) else draft;
  }

  // ----- range fill

  function Weekday(date: string): string
    requires ReadDay(date).Some?
  {
    WEEKDAYS[MondayIndex(DayOf(date))]
  }

  function KnownTarget(known: seq<Target>, room: string, date: string): (t: Target)
    ensures t.roomTypeId == room && t.stayDate == date
  {
    if known == [] then Target(room, date, None)
    else if known[0].roomTypeId == room && known[0].stayDate == date then known[0]
    else KnownTarget(known[1..], room, date)
  }

  function RoomTargets(room: string, dates: seq<string>, known: seq<Target>): seq<Target> {
    Map(date => KnownTarget(known, room, date), dates)
  }

  function Targets(rooms: seq<string>, dates: seq<string>, known: seq<Target>): seq<Target> {
    if rooms == [] then [] else RoomTargets(rooms[0], dates, known) + Targets(rooms[1..], dates, known)
  }

  predicate Selected(draft: Draft, date: string) {
    draft.weekdays == [] || (ReadDay(date).Some? && Weekday(date) in draft.weekdays)
  }

  function SelectedDates(draft: Draft, dates: seq<string>): seq<string> {
    Filter(date => Selected(draft, date), dates)
  }

  function RoomIds(draft: Draft, rooms: seq<string>): seq<string> {
    if draft.allRoomTypes then rooms else draft.roomTypeIds
  }

  datatype FillError = Blocked(reason: Reason) | BadRange | NothingSelected

  datatype Filled = Filled(draft: Draft, error: Option<FillError>)

  predicate RealRange(draft: Draft) {
    NoImpossibleDay(draft.from) && NoImpossibleDay(draft.to)
  }

  function FillRange(draft: Draft, rooms: seq<string>, known: seq<Target>): Filled
    requires RealRange(draft)
  {
    if PaintBlockedReason(draft).Some? then Filled(draft, Some(Blocked(PaintBlockedReason(draft).value)))
    else
      var dates := StayDates(draft.from, draft.to);
      if dates.None? then Filled(draft, Some(BadRange))
      else
        var selected := SelectedDates(draft, dates.value);
        var roomIds := RoomIds(draft, rooms);
        if roomIds == [] || selected == [] then Filled(draft, Some(NothingSelected))
        else Filled(Painted(draft, Targets(roomIds, selected, known), {}), None)
  }

  function UndoPaint(draft: Draft): Draft {
    if draft.undo == [] then draft
    else draft.(cells := draft.undo[|draft.undo| - 1], undo := draft.undo[..|draft.undo| - 1])
  }

  function ResetPaint(draft: Draft): Draft {
    draft.(cells := [], undo := [])
  }

  // ----- what a stroke does to one cell

  lemma {:induction false} FindWithout(cells: seq<DraftCell>, room: string, date: string, r: string, d: string)
    ensures FindCell(Without(cells, room, date), r, d) == if r == room && d == date then None else FindCell(cells, r, d)
  {
    if cells != [] {
      FindWithout(cells[1..], room, date, r, d);
    }
  }

  lemma {:induction false} FindAppend(cells: seq<DraftCell>, cell: DraftCell, r: string, d: string)
    ensures FindCell(cells + [cell], r, d)
         == if FindCell(cells, r, d).Some? then FindCell(cells, r, d) else if Covers(cell, r, d) then Some(cell) else None
  {
    if cells == [] {
      assert cells + [cell] == [cell];
    } else {
      assert (cells + [cell])[1..] == cells[1..] + [cell];
      FindAppend(cells[1..], cell, r, d);
    }
  }

  /** The stroke enters this cell: the first target with its key is that cell, and the stroke had not entered it before. */
  predicate Hit(targets: seq<Target>, seen: set<string>, room: string, date: string) {
    exists i :: 0 <= i < |targets| && targets[i].roomTypeId == room && targets[i].stayDate == date && FirstEntry(targets, seen, i)
  }

  predicate FirstEntry(targets: seq<Target>, seen: set<string>, i: nat)
    requires i < |targets|
  {
    && CellKey(targets[i]) !in seen
    && forall j | 0 <= j < i :: CellKey(targets[j]) != CellKey(targets[i])
  }

  lemma {:induction false} SeenAfter(s: Stroke, targets: seq<Target>, mode: Mode, cap: Option<int>)
    ensures TouchAll(s, targets, mode, cap).seen == s.seen + (set t | t in targets :: CellKey(t))
  {
    if targets != [] {
      var front, last := targets[..|targets| - 1], targets[|targets| - 1];
      SeenAfter(s, front, mode, cap);
      assert targets == front + [last];
    }
  }

  lemma TouchedCell(s: Stroke, t: Target, mode: Mode, cap: Option<int>, room: string, date: string)
    ensures var r := Touch(s, t, mode, cap);
            if CellKey(t) !in s.seen && t.roomTypeId == room && t.stayDate == date then Has(FindCell(r.cells, room, date), mode, cap)
            else FindCell(r.cells, room, date) == FindCell(s.cells, room, date)
    ensures Touch(s, t, mode, cap).changed <==>
            s.changed || (CellKey(t) !in s.seen && !Has(FindCell(s.cells, t.roomTypeId, t.stayDate), mode, cap))
  {
    FindWithout(s.cells, t.roomTypeId, t.stayDate, room, date);
    FindAppend(Without(s.cells, t.roomTypeId, t.stayDate), Assigned(t, mode, cap), room, date);
  }

  lemma HitLast(targets: seq<Target>, seen: set<string>, room: string, date: string)
    requires targets != []
    ensures var front, last := targets[..|targets| - 1], targets[|targets| - 1];
            Hit(targets, seen, room, date) <==>
              || Hit(front, seen, room, date)
              || (last.roomTypeId == room && last.stayDate == date
                  && CellKey(last) !in seen + (set t | t in front :: CellKey(t)))
  {
    var front, last := targets[..|targets| - 1], targets[|targets| - 1];
    if Hit(front, seen, room, date) {
      var i :| 0 <= i < |front| && front[i].roomTypeId == room && front[i].stayDate == date && FirstEntry(front, seen, i);
      assert FirstEntry(targets, seen, i);
    }
    if Hit(targets, seen, room, date) {
      var i :| 0 <= i < |targets| && targets[i].roomTypeId == room && targets[i].stayDate == date && FirstEntry(targets, seen, i);
      if i < |front| {
        assert front[i] == targets[i] && FirstEntry(front, seen, i);
      } else {
        assert forall j | 0 <= j < |front| :: front[j] == targets[j];
      }
    }
    if last.roomTypeId == room && last.stayDate == date && CellKey(last) !in seen + (set t | t in front :: CellKey(t)) {
      assert forall j | 0 <= j < |front| :: targets[j] in front;
      assert FirstEntry(targets, seen, |front|);
    }
  }

  /** A stroke gives every cell it enters the selected mode and cap, and leaves every other cell exactly as it was. */
  lemma {:induction false} TouchAllCell(s: Stroke, targets: seq<Target>, mode: Mode, cap: Option<int>, room: string, date: string)
    ensures var r := TouchAll(s, targets, mode, cap);
            if Hit(targets, s.seen, room, date) then Has(FindCell(r.cells, room, date), mode, cap)
            else FindCell(r.cells, room, date) == FindCell(s.cells, room, date)
  {
    if targets != [] {
      var front, last := targets[..|targets| - 1], targets[|targets| - 1];
      hide Hit, Touch, Has, FindCell;
      TouchAllCell(s, front, mode, cap, room, date);
      SeenAfter(s, front, mode, cap);
      HitLast(targets, s.seen, room, date);
      TouchedCell(TouchAll(s, front, mode, cap), last, mode, cap, room, date);
    }
  }

  lemma PaintedCell(draft: Draft, targets: seq<Target>, seen: set<string>, room: string, date: string)
    requires PaintBlockedReason(draft).None?
    ensures var painted := Painted(draft, targets, seen);
            if Hit(targets, seen, room, date) then Has(FindCell(painted.cells, room, date), draft.mode.value, Cap(draft))
            else FindCell(painted.cells, room, date) == FindCell(draft.cells, room, date)
  {
    var s := Stroke(draft.cells, seen, false);
    TouchAllCell(s, targets, draft.mode.value, Cap(draft), room, date);
    UnchangedCells(s, targets, draft.mode.value, Cap(draft));
  }

  lemma {:induction false} UnchangedCells(s: Stroke, targets: seq<Target>, mode: Mode, cap: Option<int>)
    ensures !TouchAll(s, targets, mode, cap).changed ==> TouchAll(s, targets, mode, cap).cells == s.cells
    ensures s.changed ==> TouchAll(s, targets, mode, cap).changed
  {
    if targets != [] {
      UnchangedCells(s, targets[..|targets| - 1], mode, cap);
    }
  }

  /** A stroke counts as a change (and can be undone) exactly when some cell it enters did not already have the mode and cap. */
  lemma {:induction false} ChangedIff(s: Stroke, targets: seq<Target>, mode: Mode, cap: Option<int>)
    ensures TouchAll(s, targets, mode, cap).changed <==>
            s.changed || exists t :: t in targets && Hit(targets, s.seen, t.roomTypeId, t.stayDate) && !Has(FindCell(s.cells, t.roomTypeId, t.stayDate), mode, cap)
  {
    if targets != [] {
      var front, last := targets[..|targets| - 1], targets[|targets| - 1];
      var before := TouchAll(s, front, mode, cap);
      hide Hit, Touch, Has, FindCell;
      ChangedIff(s, front, mode, cap);
      SeenAfter(s, front, mode, cap);
      forall t | t in targets
        ensures Hit(targets, s.seen, t.roomTypeId, t.stayDate) <==>
                Hit(front, s.seen, t.roomTypeId, t.stayDate) || (t.roomTypeId == last.roomTypeId && t.stayDate == last.stayDate && CellKey(last) !in before.seen)
      {
        HitLast(targets, s.seen, t.roomTypeId, t.stayDate);
      }
      TouchedCell(before, last, mode, cap, last.roomTypeId, last.stayDate);
      TouchAllCell(s, front, mode, cap, last.roomTypeId, last.stayDate);
      HitSeen(front, s.seen, last);
      assert targets == front + [last];
    }
  }

  lemma HitSeen(targets: seq<Target>, seen: set<string>, t: Target)
    ensures Hit(targets, seen, t.roomTypeId, t.stayDate) ==> CellKey(t) in set u | u in targets :: CellKey(u)
  {
  }

  // ----- range fill sets exactly the selected rooms times the selected nights

  lemma {:induction false} TargetsAre(rooms: seq<string>, dates: seq<string>, known: seq<Target>, t: Target)
    ensures t in Targets(rooms, dates, known) ==> t.roomTypeId in rooms && t.stayDate in dates
  {
    if rooms != [] && t in Targets(rooms, dates, known) {
      if t in RoomTargets(rooms[0], dates, known) {
        var i :| 0 <= i < |dates| && RoomTargets(rooms[0], dates, known)[i] == t;
      } else {
        TargetsAre(rooms[1..], dates, known, t);
      }
    }
  }

  lemma {:induction false} TargetsCover(rooms: seq<string>, dates: seq<string>, known: seq<Target>, room: string, date: string)
    requires room in rooms && date in dates
    ensures KnownTarget(known, room, date) in Targets(rooms, dates, known)
  {
    if rooms[0] == room {
      var i :| 0 <= i < |dates| && dates[i] == date;
      assert RoomTargets(room, dates, known)[i] == KnownTarget(known, room, date);
    } else {
      TargetsCover(rooms[1..], dates, known, room, date);
    }
  }

  lemma KeysOfDays(a: Target, b: Target)
    requires |a.stayDate| == |b.stayDate| == 10 && CellKey(a) == CellKey(b)
    ensures a.roomTypeId == b.roomTypeId && a.stayDate == b.stayDate
  {
    var n := |CellKey(a)| - 10;
    assert CellKey(a)[n..] == a.stayDate && CellKey(b)[n..] == b.stayDate;
    assert CellKey(a)[..n - 1] == a.roomTypeId && CellKey(b)[..n - 1] == b.roomTypeId;
  }

  /** When all targets are nights of ten characters, a fresh stroke enters each of their cells. */
  lemma {:induction false} FreshHit(targets: seq<Target>, t: Target)
    requires t in targets
    requires forall u | u in targets :: |u.stayDate| == 10
    ensures Hit(targets, {}, t.roomTypeId, t.stayDate)
    decreases |targets|
  {
    var front := targets[..|targets| - 1];
    assert targets == front + [targets[|targets| - 1]];
    HitLast(targets, {}, t.roomTypeId, t.stayDate);
    if t in front {
      FreshHit(front, t);
    } else if exists u :: u in front && CellKey(u) == CellKey(t) {
      var u :| u in front && CellKey(u) == CellKey(t);
      KeysOfDays(u, t);
      FreshHit(front, u);
    }
  }

  lemma {:induction false} SelectedAre(draft: Draft, dates: seq<string>, date: string)
    ensures date in SelectedDates(draft, dates) <==> date in dates && Selected(draft, date)
  {
    FilterMembers(d => Selected(draft, d), dates, date);
  }

  /** The nights a fill selects: real days of the inclusive range on the chosen weekdays. */
  predicate FillsNight(draft: Draft, date: string)
    requires ReadDay(draft.from).Some? && ReadDay(draft.to).Some?
  {
    && ReadDay(date).Some?
    && !Less(date, draft.from) && !Less(draft.to, date)
    && (draft.weekdays == [] || Weekday(date) in draft.weekdays)
  }

  lemma {:induction false} SelectedNights(draft: Draft, date: string)
    requires ReadDay(draft.from).Some? && ReadDay(draft.to).Some? && StayDates(draft.from, draft.to).Some?
    ensures date in SelectedDates(draft, StayDates(draft.from, draft.to).value) <==> FillsNight(draft, date)
  {
    hide ReadDay, DayOf, Less, MondayIndex, StayDates;
    SelectedAre(draft, StayDates(draft.from, draft.to).value, date);
    StayDatesAreTheRange(draft.from, draft.to, date);
  }

  /**
   * A fill that reports no error gives exactly the selected rooms on exactly the selected nights the mode and cap,
   * and changes no other cell.
   */
  lemma {:induction false} FillIsExact(draft: Draft, rooms: seq<string>, known: seq<Target>, room: string, date: string)
    requires RealRange(draft) && FillRange(draft, rooms, known).error.None?
    ensures ReadDay(draft.from).Some? && ReadDay(draft.to).Some?
    ensures var filled := FillRange(draft, rooms, known).draft;
            if room in RoomIds(draft, rooms) && FillsNight(draft, date) then
              Has(FindCell(filled.cells, room, date), draft.mode.value, Cap(draft))
            else FindCell(filled.cells, room, date) == FindCell(draft.cells, room, date)
  {
    var dates := SelectedDates(draft, StayDates(draft.from, draft.to).value);
    var targets := Targets(RoomIds(draft, rooms), dates, known);
    SelectedNights(draft, date);
    forall t | t in targets
      ensures |t.stayDate| == 10
    {
      TargetsAre(RoomIds(draft, rooms), dates, known, t);
      SelectedNights(draft, t.stayDate);
    }
    if room in RoomIds(draft, rooms) && FillsNight(draft, date) {
      TargetsCover(RoomIds(draft, rooms), dates, known, room, date);
      FreshHit(targets, KnownTarget(known, room, date));
    } else if Hit(targets, {}, room, date) {
      var i :| 0 <= i < |targets| && targets[i].roomTypeId == room && targets[i].stayDate == date && FirstEntry(targets, {}, i);
      TargetsAre(RoomIds(draft, rooms), dates, known, targets[i]);
    }
    PaintedCell(draft, targets, {}, room, date);
  }

  /** The range is one to 62 real days, first day first. */
  predicate GoodRange(draft: Draft) {
    && ReadDay(draft.from).Some? && ReadDay(draft.to).Some?
    && !Less(draft.to, draft.from) && NightsBetween(draft.from, draft.to) < MAX_RANGE
  }

  lemma GoodRangeHasDates(draft: Draft)
    requires RealRange(draft)
    ensures StayDates(draft.from, draft.to).Some? <==> GoodRange(draft)
  {
    hide Less, DayTexts;
    if ReadDay(draft.from).Some? && ReadDay(draft.to).Some? {
      DayOrder(draft.to, draft.from);
    }
  }

  /** Some night of the range is selected. */
  ghost predicate SomeNight(draft: Draft)
    requires ReadDay(draft.from).Some? && ReadDay(draft.to).Some?
  {
    exists date :: FillsNight(draft, date)
  }

  /**
   * The outcome of a fill: blocked for the first missing entry; otherwise refused exactly when the range is not one to 62 real
   * days in order; otherwise exactly when no room or no night is selected; and accepted in every other case. A refused fill
   * changes nothing.
   */
  lemma {:induction false} FillErrors(draft: Draft, rooms: seq<string>, known: seq<Target>)
    requires RealRange(draft)
    ensures var filled, blocked := FillRange(draft, rooms, known), PaintBlockedReason(draft);
            && (filled.error.Some? ==> filled.draft == draft)
            && (filled.error.None? <==> blocked.None? && GoodRange(draft) && RoomIds(draft, rooms) != [] && SomeNight(draft))
            && (filled.error == Some(BadRange) <==> blocked.None? && !GoodRange(draft))
            && (filled.error == Some(NothingSelected) <==>
                  blocked.None? && GoodRange(draft) && (RoomIds(draft, rooms) == [] || !SomeNight(draft)))
            && (forall reason :: filled.error == Some(Blocked(reason)) <==> blocked == Some(reason))
  {
    GoodRangeHasDates(draft);
    hide PaintBlockedReason, GoodRange, StayDates, SelectedDates, FillsNight, Painted, Targets;
    if StayDates(draft.from, draft.to).Some? {
      GoodRangeIsReal(draft);
      var selected := SelectedDates(draft, StayDates(draft.from, draft.to).value);
      forall date
        ensures date in selected <==> FillsNight(draft, date)
      {
        SelectedNights(draft, date);
      }
      if selected != [] {
        assert selected[0] in selected;
      }
    }
  }

  lemma GoodRangeIsReal(draft: Draft)
    requires GoodRange(draft)
    ensures ReadDay(draft.from).Some? && ReadDay(draft.to).Some?
  {
  }

  // ----- every run

  /** One cell per room and night, with a cap of 1 to 9999 exactly on limited cells. */
  predicate CellsOk(cells: seq<DraftCell>) {
    && (forall i, j | 0 <= i < j < |cells| :: !Covers(cells[i], cells[j].roomTypeId, cells[j].stayDate))
    && (forall c | c in cells :: if c.mode == Limited then Within(c.salesCap, 1, 9999) else c.salesCap.None?)
  }

  predicate DraftOk(draft: Draft) {
    CellsOk(draft.cells) && forall snapshot | snapshot in draft.undo :: CellsOk(snapshot)
  }

  lemma {:induction false} WithoutOk(cells: seq<DraftCell>, room: string, date: string)
    requires CellsOk(cells)
    ensures CellsOk(Without(cells, room, date))
    ensures forall c | c in Without(cells, room, date) :: c in cells && !Covers(c, room, date)
  {
    if cells != [] {
      WithoutOk(cells[1..], room, date);
    }
  }

  lemma TouchOk(s: Stroke, t: Target, mode: Mode, cap: Option<int>)
    requires CellsOk(s.cells) && (if mode == Limited then Within(cap, 1, 9999) else cap.None?)
    ensures CellsOk(Touch(s, t, mode, cap).cells)
  {
    WithoutOk(s.cells, t.roomTypeId, t.stayDate);
    var kept := Without(s.cells, t.roomTypeId, t.stayDate);
    assert forall i | 0 <= i < |kept| :: kept[i] in kept;
  }

  lemma {:induction false} TouchAllOk(s: Stroke, targets: seq<Target>, mode: Mode, cap: Option<int>)
    requires CellsOk(s.cells) && (if mode == Limited then Within(cap, 1, 9999) else cap.None?)
    ensures CellsOk(TouchAll(s, targets, mode, cap).cells)
  {
    hide CellsOk, Touch;
    if targets != [] {
      TouchAllOk(s, targets[..|targets| - 1], mode, cap);
      TouchOk(TouchAll(s, targets[..|targets| - 1], mode, cap), targets[|targets| - 1], mode, cap);
    }
  }

  lemma PaintedOk(draft: Draft, targets: seq<Target>, seen: set<string>)
    requires DraftOk(draft)
    ensures DraftOk(Painted(draft, targets, seen))
  {
    hide CellsOk, TouchAll;
    if PaintBlockedReason(draft).None? {
      TouchAllOk(Stroke(draft.cells, seen, false), targets, draft.mode.value, Cap(draft));
    }
  }

  /** The settings a person edits between strokes. */
  datatype Settings = Settings(
    mode: Option<Mode>, salesCap: Option<int>, deadlineHours: Option<int>, owner: string, escalation: string,
    allRoomTypes: bool, roomTypeIds: seq<string>, from: string, to: string, weekdays: seq<string>)

  datatype Action =
    | Paint(targets: seq<Target>, seen: set<string>)
    | Fill(rooms: seq<string>, known: seq<Target>)
    | Undo
    | Reset
    | Configure(settings: Settings)

  function Act(draft: Draft, action: Action): Draft {
    match action
    case Paint(targets, seen) => Painted(draft, targets, seen)
    case Fill(rooms, known) => if RealRange(draft) then FillRange(draft, rooms, known).draft else draft
    case Undo => UndoPaint(draft)
    case Reset => ResetPaint(draft)
    case Configure(s) =>
      draft.(mode := s.mode, salesCap := s.salesCap, deadlineHours := s.deadlineHours, owner := s.owner, escalation := s.escalation,
             allRoomTypes := s.allRoomTypes, roomTypeIds := s.roomTypeIds, from := s.from, to := s.to, weekdays := s.weekdays)
  }

  function ActAll(draft: Draft, actions: seq<Action>): Draft {
    if actions == [] then draft else Act(ActAll(draft, actions[..|actions| - 1]), actions[|actions| - 1])
  }

  /** Every run keeps the draft and every undo snapshot well-formed. */
  lemma {:induction false} EveryRun(draft: Draft, actions: seq<Action>)
    requires DraftOk(draft)
    ensures DraftOk(ActAll(draft, actions))
  {
    hide CellsOk, Painted;
    if actions != [] {
      var before, action := ActAll(draft, actions[..|actions| - 1]), actions[|actions| - 1];
      EveryRun(draft, actions[..|actions| - 1]);
      match action
      case Paint(targets, seen) => PaintedOk(before, targets, seen);
      case Fill(rooms, known) =>
        if RealRange(before) && FillRange(before, rooms, known).error.None? {
          var selected := SelectedDates(before, StayDates(before.from, before.to).value);
          PaintedOk(before, Targets(RoomIds(before, rooms), selected, known), {});
        }
      case Undo =>
      case Reset => EmptyOk();
      case Configure(_) =>
    }
  }

  lemma EmptyOk()
    ensures CellsOk([])
  {
  }

  /** In a well-formed draft a cell is found at a room and night exactly when it is in the draft. */
  lemma {:induction false} FoundIffPresent(cells: seq<DraftCell>, c: DraftCell)
    requires CellsOk(cells)
    ensures c in cells <==> FindCell(cells, c.roomTypeId, c.stayDate) == Some(c)
  {
    if cells != [] {
      FoundIffPresent(cells[1..], c);
      if c in cells[1..] {
        var j :| 0 <= j < |cells[1..]| && cells[1..][j] == c;
        assert !Covers(cells[0], cells[j + 1].roomTypeId, cells[j + 1].stayDate);
      }
    }
  }

  // ----- undo

  /** Painting would change this target's cell. */
  predicate Differs(draft: Draft, targets: seq<Target>, seen: set<string>, t: Target)
    requires PaintBlockedReason(draft).None?
  {
    Hit(targets, seen, t.roomTypeId, t.stayDate) && !Has(FindCell(draft.cells, t.roomTypeId, t.stayDate), draft.mode.value, Cap(draft))
  }

  /**
   * A stroke is recorded exactly when it is allowed and changes the mode or cap of some cell it enters; one undo then gives
   * back the draft before it: cells, history and settings.
   */
  lemma UndoTakesBack(draft: Draft, targets: seq<Target>, seen: set<string>)
    ensures var painted := Painted(draft, targets, seen);
            && (painted != draft <==> PaintBlockedReason(draft).None? && exists t :: t in targets && Differs(draft, targets, seen, t))
            && (painted != draft ==> |painted.undo| == |draft.undo| + 1 && UndoPaint(painted) == draft)
  {
    var painted := Painted(draft, targets, seen);
    if PaintBlockedReason(draft).None? {
      hide Hit, FindCell, Has;
      ChangedIff(Stroke(draft.cells, seen, false), targets, draft.mode.value, Cap(draft));
      if painted != draft {
        assert painted.undo[..|draft.undo|] == draft.undo;
      }
    }
  }

  /** A series of separate strokes. */
  function Strokes(draft: Draft, strokes: seq<seq<Target>>): Draft {
    if strokes == [] then draft else Painted(Strokes(draft, strokes[..|strokes| - 1]), strokes[|strokes| - 1], {})
  }

  function UndoTimes(draft: Draft, n: nat): Draft
    decreases n
  {
    if n == 0 then draft else UndoTimes(UndoPaint(draft), n - 1)
  }

  /** Undoing as often as the history grew restores the draft from before any series of strokes. */
  lemma {:induction false} UndoRestores(draft: Draft, strokes: seq<seq<Target>>)
    ensures |Strokes(draft, strokes).undo| >= |draft.undo|
    ensures UndoTimes(Strokes(draft, strokes), |Strokes(draft, strokes).undo| - |draft.undo|) == draft
  {
    hide Painted, UndoPaint;
    if strokes != [] {
      var before := Strokes(draft, strokes[..|strokes| - 1]);
      UndoRestores(draft, strokes[..|strokes| - 1]);
      UndoTakesBack(before, strokes[|strokes| - 1], {});
    }
  }
}
