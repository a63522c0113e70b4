/** The amendment dialog: the booking printed as a form, and the edited form read back as the difference. */
module AmendmentForm {
  import opened Common
  import opened Text
  import opened Calendar
  import opened Sorting
  import opened Amendment
  import opened AmendmentLaws

  datatype RoomForm = RoomForm(position: int, adults: string, children: string, childAges: string)

  datatype Form = Form(checkIn: string, checkOut: string, rooms: seq<RoomForm>)

  datatype Built = Proposed(proposal: Proposal) | NothingToSend | Errors

  function AgesText(ages: seq<int>): string {
    Join(Map(IntText, Sort(ages)), ", ")
  }

  function PrintRoom(r: Room): RoomForm {
    RoomForm(r.position, IntText(r.adults), IntText(r.children), AgesText(r.childAges))
  }

  function DateText(day: Option<string>): string {
    if day.Some? then day.value else ""
  }

  /** `initialAmendmentForm`. */
  function PrintForm(s: Subject): Form {
    Form(DateText(s.checkIn), DateText(s.checkOut), Map(PrintRoom, s.rooms))
  }

  /** `^\d{1,2}$` on the trimmed text. */
  function WholeNumber(v: string): Option<nat> {
    if 1 <= |Trim(v)| <= 2 && AllDigits(Trim(v)) then Some(ValueOf(Trim(v))) else None
  }

  function WithoutSpaces(s: string): string {
    Filter((c: char) => !IsSpace(c), s)
  }

  function AgeParts(text: string): seq<string> {
    Filter((part: string) => part != "", Map(Trim, Split(text, ',')))
  }

  datatype Reading = Skipped | Bad | Read(room: Room)

  predicate SameTexts(r: RoomForm, before: RoomForm) {
    r.adults == before.adults && r.children == before.children && WithoutSpaces(r.childAges) == WithoutSpaces(before.childAges)
  }

  /** One room of the form: skipped when nothing in it was edited. */
  function ReadRoom(r: RoomForm, before: Option<RoomForm>): Reading {
    if before.None? || SameTexts(r, before.value) then Skipped
    else
      var adults, children := WholeNumber(r.adults), WholeNumber(if r.children == "" then "0" else r.children);
      var parts := AgeParts(r.childAges);
      if adults.None? || children.None? || exists i | 0 <= i < |parts| :: WholeNumber(parts[i]).None? then Bad
      else Read(Room(r.position, adults.value, children.value, Map((p: string) => if WholeNumber(p).Some? then WholeNumber(p).value else 0, parts)))
  }

  function At<T>(s: seq<T>, i: nat): Option<T> {
    if i < |s| then Some(s[i]) else None
  }

  /** The edited rooms among the first `n`, in order. */
  function EditedRooms(rooms: seq<RoomForm>, before: seq<RoomForm>, n: nat): seq<Room>
    requires n <= |rooms|
  {
    if n == 0 then []
    else
      var reading := ReadRoom(rooms[n - 1], At(before, n - 1));
      EditedRooms(rooms, before, n - 1) + if reading.Read? then [reading.room] else []
  }

  predicate SomeBadRoom(rooms: seq<RoomForm>, before: seq<RoomForm>, n: nat)
    requires n <= |rooms|
  {
    exists i :: 0 <= i < n && ReadRoom(rooms[i], At(before, i)) == Bad
  }

  function EditedDay(text: string, before: string): Option<string> {
    if Trim(text) != "" && text != before then Some(Trim(text)) else None
  }

  /** The parts of the form that were edited, as the input of the validator. */
  function EditedParts(form: Form, current: Subject): Proposal {
    var before := PrintForm(current);
    var rooms := EditedRooms(form.rooms, before.rooms, |form.rooms|);
    Proposal(EditedDay(form.checkIn, before.checkIn), EditedDay(form.checkOut, before.checkOut), if rooms == [] then None else Some(rooms))
  }

  const UNEDITED := Proposal(None, None, None)

  /** `buildAmendmentProposal`. */
  method BuildAmendmentProposal(form: Form, current: Subject, today: string) returns (built: Built)
    requires RealDates(current)
    ensures built == NothingToSend <==>
            !SomeBadRoom(form.rooms, PrintForm(current).rooms, |form.rooms|) && EditedParts(form, current) == UNEDITED
    ensures built.Proposed? <==>
            && !SomeBadRoom(form.rooms, PrintForm(current).rooms, |form.rooms|) && EditedParts(form, current) != UNEDITED
            && var raw := ProposalJson(EditedParts(form, current));
               Good(raw, current, today) && ChangesOf(CanonicalProposal(raw, current, today)) != []
    ensures built.Proposed? ==> built.proposal == CanonicalProposal(ProposalJson(EditedParts(form, current)), current, today)
  {
    hide ReadRoom, ProposalJson, Good, CanonicalProposal, PrintRoom, Trim;
    var before := PrintForm(current);
    var checkIn, checkOut := EditedDay(form.checkIn, before.checkIn), EditedDay(form.checkOut, before.checkOut);
    var errors := false;
    var rooms := [];
    for i := 0 to |form.rooms|
      invariant errors == SomeBadRoom(form.rooms, before.rooms, i)
      invariant rooms == EditedRooms(form.rooms, before.rooms, i)
    {
      var reading := ReadRoom(form.rooms[i], At(before.rooms, i));
      match reading {
        case Skipped =>
        case Bad => errors := true;
        case Read(room) => rooms := rooms + [room];
      }
    }
    if errors {
      return Errors;
    }
    var parts := Proposal(checkIn, checkOut, if |rooms| == 0 then None else Some(rooms));
    if parts == UNEDITED {
      return NothingToSend;
    }
    var checked := ValidateAmendmentProposal(ProposalJson(parts), current, today);
    built := match checked case Ok(proposal, _, _) => Proposed(proposal) case Rejected(_) => Errors;
  }
}
