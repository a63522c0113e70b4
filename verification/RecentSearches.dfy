/** The recent searches of an agent. */
module RecentSearches {
  // A bounded move-to-front list kept as JSON in the browser session. `JSON.parse` and `JSON.stringify` are taken as exact on
  // the values below; anything else in the storage is `Garbage` or `Junk`.

  import opened Common
  import opened Text
  import opened Sorting
  import opened BrowserStorage
  import opened AccountSession
  import Occupancy

  const LIMIT: nat := 8

  datatype DestinationRef = City(id: string, countryCode: string) | Hotel(id: string)

  datatype Search = Search(
    destination: string,
    cityName: Option<string>,
    destinationRef: Option<DestinationRef>,
    checkIn: string,
    checkOut: string,
    rooms: int,
    adults: int,
    children: int,
    childAges: seq<int>,
    roomStays: Option<seq<Occupancy.RoomStay>>,
    nationality: Option<string>,
    currency: Option<string>,
    sort: Option<string>,
    starRatings: Option<seq<int>>,
    refundableOnly: bool,
    minPriceMinor: Option<int>,
    maxPriceMinor: Option<int>,
    boardBasisIds: Option<seq<string>>,
    propertyTypes: Option<seq<string>>,
    brands: Option<seq<string>>)

  /** One element of a stored list; `Junk` is an element whose fields do not have the types of a search. */
  datatype Entry = Item(search: Search) | Junk

  datatype Content = Entries(entries: seq<Entry>) | Garbage

  // ----- validation

  const MAX_SAFE_INTEGER: int := 9007199254740991

  const SELLING_CURRENCIES: set<string> :=
    {"AED", "USD", "EUR", "GBP", "INR", "SAR", "QAR", "OMR", "KWD", "BHD", "SGD", "AUD", "CAD", "JPY"}

  const GUEST_MARKETS: set<string> :=
    {"IN", "AE", "GB", "US", "CA", "AU", "SG", "SA", "QA", "OM", "KW", "BH", "DE", "FR", "IT", "ES", "NL",
     "BE", "CH", "AT", "IE", "PT", "GR", "TR", "CN", "JP", "KR", "ID", "MY", "TH", "VN", "PH", "ZA", "NZ"}

  predicate IsGuestMarket(code: string) {
    code in GUEST_MARKETS
  }

  predicate IsSellingCurrency(code: string) {
    code in SELLING_CURRENCIES
  }

  predicate IsSort(name: string) {
    name in {"default", "price", "stars", "name"}
  }

  predicate ValidStars(stars: seq<int>) {
    1 <= |stars| <= 5 && forall i | 0 <= i < |stars| :: 1 <= stars[i] <= 5
  }

  predicate ValidMinor(n: int) {
    0 <= n <= MAX_SAFE_INTEGER
  }

  predicate ValidRef(ref: DestinationRef) {
    match ref
    case Hotel(id) => Trim(id) != ""
    case City(id, countryCode) => StartsWith(id, "city:" + countryCode + ":")
  }

  function Drafts(stays: seq<Occupancy.RoomStay>): seq<Occupancy.Draft> {
    Map((stay: Occupancy.RoomStay) => Occupancy.Draft(stay.adults, Map((age: int) => Some(age), stay.ages)), stays)
  }

  predicate ValidStays(stays: seq<Occupancy.RoomStay>) {
    Occupancy.RoomsOk(Drafts(stays)) && Occupancy.Aggregate(Occupancy.ResolvedAll(Drafts(stays))).Ok?
  }

  predicate FilledTexts(texts: seq<string>) {
    forall i | 0 <= i < |texts| :: Trim(texts[i]) != ""
  }

  predicate FiltersOk(s: Search) {
    && (s.boardBasisIds.Some? ==> FilledTexts(s.boardBasisIds.value))
    && (s.propertyTypes.Some? ==> FilledTexts(s.propertyTypes.value))
    && (s.brands.Some? ==> FilledTexts(s.brands.value))
    && (s.starRatings.Some? ==> ValidStars(s.starRatings.value))
    && (s.minPriceMinor.Some? ==> ValidMinor(s.minPriceMinor.value))
    && (s.maxPriceMinor.Some? ==> ValidMinor(s.maxPriceMinor.value))
    && (s.minPriceMinor.Some? && s.maxPriceMinor.Some? ==> s.minPriceMinor.value <= s.maxPriceMinor.value)
  }

  /** `isRecentSearch`. */
  predicate IsRecentSearch(s: Search) {
    && FiltersOk(s)
    && (s.nationality.Some? ==> IsGuestMarket(s.nationality.value))
    && (s.destinationRef.Some? ==> ValidRef(s.destinationRef.value))
    && (s.roomStays.Some? ==> ValidStays(s.roomStays.value))
    && (s.currency.Some? ==> IsSellingCurrency(s.currency.value))
    && (s.sort.Some? ==> IsSort(s.sort.value))
    && Trim(s.destination) != ""
    && |s.childAges| == s.children
  }

  // ----- the two normalisations

  function KeepIf(text: Option<string>, keep: string -> bool): Option<string> {
    if text.Some? && keep(text.value) then text else None
  }

  function TrimmedText(text: Option<string>): Option<string> {
    if text.Some? && Trim(text.value) != "" then Some(Trim(text.value)) else None
  }

  function KeepFilled<T>(list: Option<seq<T>>): Option<seq<T>> {
    if list.Some? && list.value != [] then list else None
  }

  function SortedStars(stars: Option<seq<int>>): Option<seq<int>> {
    if stars.Some? then Some(Sort(stars.value)) else None
  }

  /** What is written for an accepted search (`storedSearch`). */
  function StoredSearch(s: Search): Search {
    s.(destination := Trim(s.destination),
       cityName := TrimmedText(s.cityName),
       destinationRef := if s.destinationRef.Some? && ValidRef(s.destinationRef.value) then s.destinationRef else None,
       roomStays := if s.roomStays.Some? && ValidStays(s.roomStays.value) then s.roomStays else None,
       nationality := KeepIf(s.nationality, c => c != "" && IsGuestMarket(c)),
       currency := KeepIf(s.currency, c => c != "" && IsSellingCurrency(c)),
       sort := KeepIf(s.sort, n => n != ""),
       starRatings := SortedStars(KeepFilled(s.starRatings)),
       boardBasisIds := KeepFilled(s.boardBasisIds),
       propertyTypes := KeepFilled(s.propertyTypes),
       brands := KeepFilled(s.brands))
  }

  /** What is read back for a valid stored entry (the mapping in `readRecentSearches`). */
  function ReadSearch(s: Search): Search {
    s.(destination := Trim(s.destination),
       cityName := TrimmedText(s.cityName),
       destinationRef := if s.destinationRef.Some? && ValidRef(s.destinationRef.value) then s.destinationRef else None,
       roomStays := if s.roomStays.Some? && ValidStays(s.roomStays.value) then s.roomStays else None,
       nationality := KeepIf(s.nationality, c => c != ""),
       sort := KeepIf(s.sort, n => n != ""),
       starRatings := SortedStars(s.starRatings))
  }

  /** The copy that is validated: an empty star filter is left out. */
  function Candidate(s: Search): Search {
    s.(starRatings := KeepFilled(s.starRatings))
  }

  // ----- identity

  function IntTexts(ns: seq<int>): string {
    Join(Map(IntText, ns), ",")
  }

  function OptionalInt(n: Option<int>): string {
    if n.Some? then IntText(n.value) else ""
  }

  function OptionalText(text: Option<string>): string {
    if text.Some? then text.value else ""
  }

  function TextList(texts: Option<seq<string>>): string {
    if texts.Some? then Join(SortTexts(texts.value), ",") else ""
  }

  function StayJson(stay: Occupancy.RoomStay): string {
    "{\"adults\":" + IntText(stay.adults) + ",\"children\":["
    + Join(Map((age: int) => "{\"age\":" + IntText(age) + "}", stay.ages), ",") + "]}"
  }

  function StaysJson(stays: seq<Occupancy.RoomStay>): string {
    "[" + Join(Map(StayJson, stays), ",") + "]"
  }

  function DestinationIdentity(s: Search): string {
    match s.destinationRef
    case Some(City(id, _)) => "city:" + id
    case Some(Hotel(id)) => "hotel:" + id
    case None => Lower(Trim(s.destination))
  }

  /** `recentSearchIdentity`. */
  function Identity(s: Search): string {
    Join([DestinationIdentity(s),
          if s.roomStays.Some? then StaysJson(s.roomStays.value) else "",
          OptionalText(s.currency), OptionalText(s.sort), s.checkIn, s.checkOut,
          IntText(s.rooms), IntText(s.adults), IntText(s.children), IntTexts(s.childAges),
          OptionalText(s.nationality),
          IntTexts(Sort(if s.starRatings.Some? then s.starRatings.value else [])),
          if s.refundableOnly then "1" else "0",
          OptionalInt(s.minPriceMinor), OptionalInt(s.maxPriceMinor),
          TextList(s.boardBasisIds), TextList(s.propertyTypes), TextList(s.brands)], "|")
  }

  // ----- the list

  function Others(list: seq<Search>, s: Search): seq<Search> {
    Filter((item: Search) => Identity(item) != Identity(s), list)
  }

  function ReadContent(content: Option<Content>): seq<Search> {
    if content.Some? && content.value.Entries? then
      Map(ReadEntry, Take(Filter(IsValidEntry, content.value.entries), LIMIT))
    else []
  }

  predicate IsValidEntry(e: Entry) {
    e.Item? && IsRecentSearch(e.search)
  }

  const NO_SEARCH := Search("", None, None, "", "", 0, 0, 0, [], None, None, None, None, None, false, None, None, None, None, None)

  function ReadEntry(e: Entry): Search {
    if e.Item? then ReadSearch(e.search) else NO_SEARCH
  }

  function Written(list: seq<Search>): Content {
    Entries(Map((s: Search) => Item(s), list))
  }

  function Remembered(list: seq<Search>, clean: Search): seq<Search> {
    Take([clean] + Others(list, clean), LIMIT)
  }

  // ----- the operations on the storage

  function ReadRecentSearches(storage: SessionStorage<Content>, userId: string, tenantId: string): seq<Search>
    reads storage
  {
    if userId == "" then [] else ReadContent(storage.GetItem(RecentSearchKey(userId, tenantId)))
  }

  /** What one remembered or deleted search does to the stored value of the account's key. */
  function ContentAfterRemember(content: Option<Content>, search: Search): Option<Content> {
    if !IsRecentSearch(Candidate(search)) then content
    else Some(Written(Remembered(ReadContent(content), StoredSearch(Candidate(search)))))
  }

  function ContentAfterDelete(content: Option<Content>, search: Search): Option<Content> {
    var next := Others(ReadContent(content), search);
    if next == [] then None else Some(Written(next))
  }

  ghost predicate OnlyKey(before: map<string, Content>, after: map<string, Content>, key: string, content: Option<Content>) {
    && (forall k :: k in after <==> if k == key then content.Some? else k in before)
    && (forall k | k in after :: if k == key then Some(after[k]) == content else after[k] == before[k])
  }

  method RememberRecentSearch(storage: SessionStorage<Content>, userId: string, search: Search, tenantId: string)
    requires storage.Valid()
    modifies storage
    ensures storage.Valid()
    ensures userId == "" ==> storage.values == old(storage.values)
    ensures userId != "" ==>
      OnlyKey(old(storage.values), storage.values, RecentSearchKey(userId, tenantId),
              ContentAfterRemember(old(storage.GetItem(RecentSearchKey(userId, tenantId))), search))
  {
    hide IsRecentSearch, StoredSearch, RecentSearchKey, Remembered, Written, ReadContent, Others;
    var candidate := search;
    if candidate.starRatings == Some([]) {
      candidate := candidate.(starRatings := None);
    }
    assert candidate == Candidate(search);
    if userId == "" || !IsRecentSearch(candidate) {
      return;
    }
    var clean := StoredSearch(candidate);
    var next := Remembered(ReadRecentSearches(storage, userId, tenantId), clean);
    storage.SetItem(RecentSearchKey(userId, tenantId), Written(next));
  }

  method DeleteRecentSearch(storage: SessionStorage<Content>, userId: string, search: Search, tenantId: string)
    requires storage.Valid()
    modifies storage
    ensures storage.Valid()
    ensures userId == "" ==> storage.values == old(storage.values)
    ensures userId != "" ==>
      OnlyKey(old(storage.values), storage.values, RecentSearchKey(userId, tenantId),
              ContentAfterDelete(old(storage.GetItem(RecentSearchKey(userId, tenantId))), search))
  {
    hide RecentSearchKey, Written, ReadContent, Others;
    if userId == "" {
      return;
    }
    var next := Others(ReadRecentSearches(storage, userId, tenantId), search);
    if |next| == 0 {
      storage.RemoveItem(RecentSearchKey(userId, tenantId));
    } else {
      storage.SetItem(RecentSearchKey(userId, tenantId), Written(next));
    }
  }

  // ----- reading back what was stored

  lemma {:induction false} SortedStarsValid(stars: seq<int>)
    requires ValidStars(stars)
    ensures ValidStars(Sort(stars)) && Sort(stars) != [] && Sort(Sort(stars)) == Sort(stars)
  {
    SortContents(stars);
    SortSorted(Sort(stars));
    forall i | 0 <= i < |Sort(stars)|
      ensures 1 <= Sort(stars)[i] <= 5
    {
      SortMembers(stars, Sort(stars)[i]);
    }
  }

  /** An accepted search is stored as a valid entry, and reading that entry changes nothing. */
  lemma {:induction false} StoredReadsBack(s: Search)
    requires IsRecentSearch(s)
    ensures IsRecentSearch(StoredSearch(s)) && ReadSearch(StoredSearch(s)) == StoredSearch(s)
  {
    hide IsGuestMarket, IsSellingCurrency, IsSort, ValidRef, ValidStays, FilledTexts, Sort, Trim, ValidStars;
    TrimIdempotent(s.destination);
    EmptyIsNothing();
    if s.cityName.Some? {
      TrimIdempotent(s.cityName.value);
    }
    if s.starRatings.Some? {
      SortedStarsValid(s.starRatings.value);
      StarsAreSome(s.starRatings.value);
    }
  }

  lemma EmptyIsNothing()
    ensures !IsGuestMarket("") && !IsSellingCurrency("") && !IsSort("")
  {
  }

  lemma StarsAreSome(stars: seq<int>)
    requires ValidStars(stars)
    ensures stars != []
  {
  }

  /** The identity does not depend on which of the two forms of a search is compared. */
  lemma {:induction false} StoredKeepsIdentity(s: Search)
    requires IsRecentSearch(s)
    ensures Identity(StoredSearch(s)) == Identity(s)
  {
    hide IsGuestMarket, IsSellingCurrency, IsSort, ValidRef, ValidStays, FilledTexts, Sort, Trim, ValidStars, Lower, Join, StaysJson, IntTexts, SortTexts;
    TrimIdempotent(s.destination);
    EmptyIsNothing();
    EmptyLists();
    if s.starRatings.Some? {
      SortedStarsValid(s.starRatings.value);
      StarsAreSome(s.starRatings.value);
    }
    var t := StoredSearch(s);
    assert TextList(t.boardBasisIds) == TextList(s.boardBasisIds);
    assert TextList(t.propertyTypes) == TextList(s.propertyTypes);
    assert TextList(t.brands) == TextList(s.brands);
    assert DestinationIdentity(t) == DestinationIdentity(s);
  }

  lemma EmptyLists()
    ensures Join(SortTexts([]), ",") == "" && IntTexts([]) == "" && Sort([]) == []
  {
  }

  /** Every element is one that reads back unchanged. */
  predicate Clean(list: seq<Search>) {
    forall i | 0 <= i < |list| :: IsRecentSearch(list[i]) && ReadSearch(list[i]) == list[i]
  }

  lemma {:induction false} ValidEntriesOf(list: seq<Search>)
    requires Clean(list)
    ensures Filter(IsValidEntry, Written(list).entries) == Written(list).entries
  {
    hide IsRecentSearch, ReadSearch;
    FilterAll(IsValidEntry, Written(list).entries);
  }

  /** A written list of at most eight clean searches reads back as itself. */
  lemma {:induction false} ReadWritten(list: seq<Search>)
    requires Clean(list) && |list| <= LIMIT
    ensures ReadContent(Some(Written(list))) == list
  {
    hide IsRecentSearch, ReadSearch;
    ValidEntriesOf(list);
  }

  // ----- every run, against an unbounded history

  datatype Event = Remember(search: Search) | Delete(search: Search)

  predicate Accepted(search: Search) {
    IsRecentSearch(Candidate(search))
  }

  function ContentAfter(events: seq<Event>): Option<Content> {
    if events == [] then None
    else
      var before := ContentAfter(events[..|events| - 1]);
      match events[|events| - 1]
      case Remember(search) => ContentAfterRemember(before, search)
      case Delete(search) => ContentAfterDelete(before, search)
  }

  /** The history without a bound: newest first, one entry per identity. */
  function History(events: seq<Event>): seq<Search> {
    if events == [] then []
    else
      var before := History(events[..|events| - 1]);
      match events[|events| - 1]
      case Remember(search) =>
        if Accepted(search) then [StoredSearch(Candidate(search))] + Others(before, StoredSearch(Candidate(search))) else before
      case Delete(search) => Others(before, search)
  }

  predicate DistinctSearches(list: seq<Search>) {
    forall i, j | 0 <= i < j < |list| :: Identity(list[i]) != Identity(list[j])
  }

  lemma {:induction false} OthersFacts(list: seq<Search>, s: Search)
    ensures forall x | x in Others(list, s) :: x in list && Identity(x) != Identity(s)
    ensures Clean(list) ==> Clean(Others(list, s))
    ensures DistinctSearches(list) ==> DistinctSearches(Others(list, s))
  {
    hide Identity, IsRecentSearch, ReadSearch;
    if list != [] {
      OthersFacts(list[1..], s);
      var rest := Others(list[1..], s);
      assert forall i | 0 <= i < |rest| :: rest[i] in rest;
    }
  }

  lemma {:induction false} OthersAppend(a: seq<Search>, b: seq<Search>, s: Search)
    ensures Others(a + b, s) == Others(a, s) + Others(b, s)
  {
    FilterAppend((item: Search) => Identity(item) != Identity(s), a, b);
  }

  /** At most one element of a distinct list has a given identity. */
  lemma {:induction false} OthersCount(list: seq<Search>, s: Search)
    requires DistinctSearches(list)
    ensures |Others(list, s)| >= |list| - 1
    ensures (forall x | x in list :: Identity(x) != Identity(s)) ==> Others(list, s) == list
  {
    hide Identity;
    if list != [] {
      OthersCount(list[1..], s);
      assert forall x | x in list[1..] :: Identity(x) != Identity(list[0]);
    }
  }

  lemma {:induction false} HistoryFacts(events: seq<Event>)
    ensures Clean(History(events)) && DistinctSearches(History(events))
  {
    hide Identity, IsRecentSearch, ReadSearch, StoredSearch, Others;
    if events != [] {
      var front := events[..|events| - 1];
      HistoryFacts(front);
      var e := events[|events| - 1];
      var clean := StoredSearch(Candidate(e.search));
      OthersFacts(History(front), if e.Remember? then clean else e.search);
      if e.Remember? && Accepted(e.search) {
        StoredReadsBack(Candidate(e.search));
        var rest := Others(History(front), clean);
        assert forall i | 0 <= i < |rest| :: rest[i] in rest;
      }
    }
  }

  /** Dropping an identity keeps prefixes. */
  lemma OthersPrefix(list: seq<Search>, whole: seq<Search>, s: Search)
    requires list <= whole
    ensures Others(list, s) <= Others(whole, s)
  {
    assert whole == list + whole[|list|..];
    OthersAppend(list, whole[|list|..], s);
  }

  /**
   * After any mixture of remembered and deleted searches, the list read back is a prefix of the unbounded history, so it is
   * in recency order and distinct by identity; it never has more than eight entries.
   */
  lemma {:induction false} EveryRun(events: seq<Event>)
    ensures ReadContent(ContentAfter(events)) <= History(events)
    ensures |ReadContent(ContentAfter(events))| <= LIMIT
    ensures DistinctSearches(ReadContent(ContentAfter(events)))
  {
    hide Identity, IsRecentSearch, ReadSearch, StoredSearch, Others, ReadContent, Written;
    HistoryFacts(events);
    if events == [] {
      NothingStored();
    } else {
      var front, e := events[..|events| - 1], events[|events| - 1];
      EveryRun(front);
      HistoryFacts(front);
      var list := ReadContent(ContentAfter(front));
      if e.Remember? && Accepted(e.search) {
        var clean := StoredSearch(Candidate(e.search));
        OthersPrefix(list, History(front), clean);
        RememberStep(list, History(front), clean);
        CleanPrefix(Remembered(list, clean), History(events));
        ReadWritten(Remembered(list, clean));
      } else if e.Delete? {
        OthersPrefix(list, History(front), e.search);
        OthersShorter(list, e.search);
        CleanPrefix(Others(list, e.search), History(events));
        ReadWritten(Others(list, e.search));
        if Others(list, e.search) == [] {
          NothingStored();
        }
      }
    }
  }

  lemma NothingStored()
    ensures ReadContent(None) == []
  {
  }

  lemma OthersShorter(list: seq<Search>, s: Search)
    ensures |Others(list, s)| <= |list|
  {
  }

  lemma RememberStep(list: seq<Search>, history: seq<Search>, clean: Search)
    requires Others(list, clean) <= Others(history, clean)
    ensures Remembered(list, clean) <= [clean] + Others(history, clean)
    ensures |Remembered(list, clean)| <= LIMIT
  {
  }

  lemma CleanPrefix(list: seq<Search>, whole: seq<Search>)
    requires list <= whole && Clean(whole) && DistinctSearches(whole)
    ensures Clean(list) && DistinctSearches(list)
  {
    hide Identity, IsRecentSearch, ReadSearch;
    assert forall i | 0 <= i < |list| :: list[i] == whole[i];
  }

  /** Without deletes it is exactly the eight most recent. */
  lemma {:induction false} RememberedAreTheNewest(events: seq<Event>)
    requires forall i | 0 <= i < |events| :: events[i].Remember?
    ensures ReadContent(ContentAfter(events)) == Take(History(events), LIMIT)
  {
    hide Identity, IsRecentSearch, ReadSearch, StoredSearch, Others, ReadContent, Written;
    if events == [] {
      NothingStored();
    } else {
      var front, e := events[..|events| - 1], events[|events| - 1];
      RememberedAreTheNewest(front);
      if Accepted(e.search) {
        var clean := StoredSearch(Candidate(e.search));
        var history := History(front);
        HistoryFacts(front);
        HistoryFacts(events);
        NewestStep(history, clean);
        CleanPrefix(Take([clean] + Others(history, clean), LIMIT), History(events));
        ReadWritten(Remembered(Take(history, LIMIT), clean));
      }
    }
  }

  /** Moving to the front of the eight newest gives the eight newest of the moved history. */
  lemma NewestStep(history: seq<Search>, clean: Search)
    requires DistinctSearches(history)
    ensures Remembered(Take(history, LIMIT), clean) == Take([clean] + Others(history, clean), LIMIT)
  {
    hide Identity, Others, DistinctSearches;
    if |history| > LIMIT {
      var head, tail := history[..LIMIT], history[LIMIT..];
      assert history == head + tail;
      OthersAppend(head, tail, clean);
      CleanlessPrefix(head, history);
      OthersCount(head, clean);
      TakeOfLonger(clean, Others(head, clean), Others(tail, clean));
    }
  }

  lemma TakeOfLonger(clean: Search, a: seq<Search>, b: seq<Search>)
    requires |a| >= LIMIT - 1
    ensures Take([clean] + a, LIMIT) == Take([clean] + (a + b), LIMIT)
  {
  }

  lemma CleanlessPrefix(list: seq<Search>, whole: seq<Search>)
    requires list <= whole && DistinctSearches(whole)
    ensures DistinctSearches(list)
  {
    hide Identity;
    assert forall i | 0 <= i < |list| :: list[i] == whole[i];
  }

  // ----- the history is the deduplicated sequence of what was remembered

  /** The accepted searches as stored, newest first, repetitions included. */
  function NewestFirst(events: seq<Event>): seq<Search> {
    if events == [] then []
    else
      var e := events[|events| - 1];
      (if e.Remember? && Accepted(e.search) then [StoredSearch(Candidate(e.search))] else []) + NewestFirst(events[..|events| - 1])
  }

  /** Keeps each element whose identity no earlier element has. */
  function Dedup(s: seq<Search>): seq<Search> {
    if s == [] then []
    else
      var front, last := s[..|s| - 1], s[|s| - 1];
      if exists x :: x in front && Identity(x) == Identity(last) then Dedup(front) else Dedup(front) + [last]
  }

  lemma {:induction false} DedupFromTheFront(x: Search, s: seq<Search>)
    ensures Dedup([x] + s) == [x] + Others(Dedup(s), x)
  {
    hide Identity;
    if s == [] {
      assert [x] + s == [x];
      assert [x][..0] == [];
      assert Others(Dedup(s), x) == [];
    } else {
      var front, last := s[..|s| - 1], s[|s| - 1];
      assert ([x] + s)[..|[x] + s| - 1] == [x] + front;
      DedupFromTheFront(x, front);
      OthersAppend(Dedup(front), [last], x);
      assert (exists y :: y in [x] + front && Identity(y) == Identity(last))
        <==> Identity(x) == Identity(last) || exists y :: y in front && Identity(y) == Identity(last);
      OthersOne(last, x);
    }
  }

  lemma OthersOne(y: Search, x: Search)
    ensures Others([y], x) == if Identity(y) == Identity(x) then [] else [y]
  {
  }

  /** The list of recent searches is the first eight of the deduplicated, newest-first sequence of everything remembered. */
  lemma {:induction false} RecentIsFirstEightDistinct(events: seq<Event>)
    requires forall i | 0 <= i < |events| :: events[i].Remember?
    ensures ReadContent(ContentAfter(events)) == Take(Dedup(NewestFirst(events)), LIMIT)
  {
    RememberedAreTheNewest(events);
    HistoryIsDedup(events);
  }

  lemma {:induction false} HistoryIsDedup(events: seq<Event>)
    requires forall i | 0 <= i < |events| :: events[i].Remember?
    ensures History(events) == Dedup(NewestFirst(events))
  {
    hide Identity, IsRecentSearch, StoredSearch, Others, Dedup;
    if events == [] {
      DedupNothing();
    } else {
      HistoryIsDedup(events[..|events| - 1]);
      var e := events[|events| - 1];
      assert e.Remember?;
      assert [] + NewestFirst(events[..|events| - 1]) == NewestFirst(events[..|events| - 1]);
      DedupFromTheFront(StoredSearch(Candidate(e.search)), NewestFirst(events[..|events| - 1]));
    }
  }

  lemma DedupNothing()
    ensures Dedup([]) == []
  {
  }

  /** Deleting with the search that was remembered removes it, whatever else is in the list. */
  lemma {:induction false} DeleteRemovesIt(events: seq<Event>, search: Search)
    requires Accepted(search)
    ensures forall x | x in ReadContent(ContentAfter(events + [Delete(search)])) ::
              Identity(x) != Identity(StoredSearch(Candidate(search)))
  {
    hide Identity, IsRecentSearch, ReadSearch, StoredSearch, Others, ReadContent, Written;
    assert (events + [Delete(search)])[..|events|] == events;
    StoredKeepsIdentity(Candidate(search));
    CandidateIdentity(search);
    EveryRun(events);
    HistoryFacts(events);
    var list := ReadContent(ContentAfter(events));
    CleanPrefix(list, History(events));
    OthersFacts(list, search);
    OthersShorter(list, search);
    ReadWritten(Others(list, search));
    NothingStored();
  }

  lemma CandidateIdentity(s: Search)
    ensures Identity(Candidate(s)) == Identity(s)
  {
    EmptyLists();
  }
}
