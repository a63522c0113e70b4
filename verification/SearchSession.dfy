/** The agent search session. */
module SearchSession {
  // Each handler segment between two awaits is one atomic step; a request in flight is the closure that waits for its reply,
  // with the generation and the list it captured. Replies arrive in any order, or fail. A handler sees the list of the render it
  // belongs to, also after it has set another.

  import opened Common
  import opened SearchRun
  import opened SearchPage

  datatype Status =
    | Available
    | Partial
    | Empty
    | ProviderUnavailable
    | MappingUnavailable
    | AuthRequired
    | AccessDenied
    | AgencySuspended
    | DestinationUnavailable

  /** `provider_unavailable` is the only failure that may keep the previous list. */
  function ReplaceSearchResult(previousExists: bool, status: Status): bool {
    !(previousExists && status == ProviderUnavailable)
  }

  predicate IsRequestFailure(status: Status) {
    status in {ProviderUnavailable, AuthRequired, AccessDenied, AgencySuspended, DestinationUnavailable}
  }

  predicate IsCompleted(status: Status) {
    status in {Available, Partial, Empty}
  }

  datatype Criteria = Criteria(text: string)

  /**
   * What the search service answers; it stamps the answer with the criteria that were sent. A failure may bring its own
   * message, empty when it does not.
   */
  datatype Reply = Reply(status: Status, hotels: seq<Hotel>, total: nat, pagination: Option<Pagination>, searchId: Option<string>, message: string)

  /** `Unremembered`: the reply arrived, but a search worth remembering could not be written to the storage, which throws. */
  datatype Outcome = Replied(reply: Reply) | Unremembered(reply: Reply) | Thrown

  /** Above the list: nothing, the failure's own message, or "The hotels below are still the previous successful search." */
  datatype Notice = NoNotice | OwnMessage(text: string) | StillPrevious

  /** The list on screen, with the search that contributed each hotel. */
  datatype Shown = Shown(request: Criteria, status: Status, hotels: seq<Hotel>, total: nat, pagination: Option<Pagination>, searchIds: map<string, string>)

  datatype Task =
    | SearchTask(generation: nat, criteria: Criteria, previous: Option<Shown>)
    | PageTask(generation: nat, current: Shown, offset: nat)
    | MoreTask(generation: nat, current: Shown, offset: nat)

  datatype Screen = Screen(
    run: Run,
    searchingShown: bool,
    loadingMore: bool,
    result: Option<Shown>,
    searchFailed: bool,
    refreshError: Notice,
    loadMoreError: bool)

  const FRESH := Screen(IDLE, false, false, None, false, NoNotice, false)

  /** The search id of a reply, when it carries one. */
  function Contribution(reply: Reply): Option<string> {
    if reply.searchId.Some? && reply.searchId.value != "" then reply.searchId else None
  }

  function Stamp(reply: Reply): map<string, string> {
    if Contribution(reply).None? then map[] else map id | id in Ids(reply.hotels) :: Contribution(reply).value
  }

  function ShownReply(request: Criteria, reply: Reply): Shown {
    Shown(request, reply.status, reply.hotels, reply.total, reply.pagination, Stamp(reply))
  }

  // ----- the steps, as functions on the screen

  function Edited(s: Screen): Screen {
    s.(run := Invalidate(s.run), searchingShown := false, loadingMore := false, result := None, refreshError := NoNotice, loadMoreError := false)
  }

  datatype Started = Started(screen: Screen, task: Option<Task>)

  /** A search starts; `rendered` is the list of the render whose handler started it, which is the list it captures. */
  function SearchStarted(s: Screen, criteria: Criteria, rendered: Option<Shown>): Started {
    match Begin(s.run)
    case None => Started(s, None)
    case Some(run) =>
      Started(s.(run := run, searchingShown := true, refreshError := NoNotice, loadMoreError := false, loadingMore := false),
              Some(SearchTask(run.generation, criteria, rendered)))
  }

  /** A sort picked in the form of the home page: an edit, and over a list a search too, in one handler and so of one render. */
  function Resorted(s: Screen, criteria: Criteria): Started {
    if s.result.None? then Started(Edited(s), None) else SearchStarted(Edited(s), criteria, s.result)
  }

  function SearchSettled(s: Screen, generation: nat): Screen {
    if Settle(s.run, generation).apply then s.(run := s.run.(searching := false), searchingShown := false) else s
  }

  /** The catch branch: with a list before the search, the default sentence. */
  function Caught(s: Screen, previous: Option<Shown>): Screen {
    s.(searchFailed := true, refreshError := if previous.Some? then StillPrevious else s.refreshError)
  }

  function FailureNotice(reply: Reply): Notice {
    if reply.message != "" then OwnMessage(reply.message) else StillPrevious
  }

  /** Remembering the search throws; only a completed search is remembered. */
  predicate ThrowsLate(outcome: Outcome) {
    outcome.Unremembered? && IsCompleted(outcome.reply.status)
  }

  /** A reply is written, and then remembered. */
  function Replaced(s: Screen, criteria: Criteria, previous: Option<Shown>, outcome: Outcome): Screen
    requires !outcome.Thrown?
  {
    var written := s.(result := Some(ShownReply(criteria, outcome.reply)), refreshError := NoNotice);
    if ThrowsLate(outcome) then Caught(written, previous) else written.(searchFailed := outcome.reply.status == ProviderUnavailable)
  }

  function SearchAnswered(s: Screen, tenant: string, generation: nat, criteria: Criteria, previous: Option<Shown>, outcome: Outcome): Screen {
    if generation != s.run.generation || (tenant == "" && !outcome.Thrown?) then s
    else if outcome.Thrown? then Caught(s, previous)
    else if !ReplaceSearchResult(previous.Some?, outcome.reply.status) then s.(searchFailed := true, refreshError := FailureNotice(outcome.reply))
    else Replaced(s, criteria, previous, outcome)
  }

  function SearchFinished(s: Screen, tenant: string, generation: nat, criteria: Criteria, previous: Option<Shown>, outcome: Outcome): Screen {
    SearchSettled(SearchAnswered(s, tenant, generation, criteria, previous, outcome), generation)
  }

  function PageStarted(s: Screen, offset: int): Started {
    if s.result.None? || offset < 0 || s.loadingMore || s.run.searching then Started(s, None)
    else Started(s.(loadingMore := true, loadMoreError := false), Some(PageTask(s.run.generation, s.result.value, offset)))
  }

  function MoreStarted(s: Screen): Started {
    if s.result.None? || s.result.value.pagination.None? || !s.result.value.pagination.value.hasMore
       || s.result.value.pagination.value.nextOffset.None? || s.loadingMore || s.run.searching then Started(s, None)
    else
      Started(s.(loadingMore := true, loadMoreError := false),
              Some(MoreTask(s.run.generation, s.result.value, s.result.value.pagination.value.nextOffset.value)))
  }

  function PagingSettled(s: Screen, generation: nat): Screen {
    if generation == s.run.generation then s.(loadingMore := false) else s
  }

  function PageFinished(s: Screen, tenant: string, generation: nat, current: Shown, outcome: Outcome): Screen {
    var body :=
      if outcome.Thrown? then (if generation == s.run.generation then s.(loadMoreError := true) else s)
      else if tenant == "" || generation != s.run.generation then s
      else if IsRequestFailure(outcome.reply.status) || outcome.reply.status == MappingUnavailable then s.(loadMoreError := true)
      else s.(result := Some(ShownReply(current.request, outcome.reply)));
    PagingSettled(body, generation)
  }

  /** The list after a loaded page was appended to it. */
  function Grown(current: Shown, reply: Reply): Shown {
    var added := NewHotels(Ids(current.hotels), reply.hotels);
    var hotels := current.hotels + added;
    current.(hotels := hotels,
             total := if reply.pagination.Some? then reply.pagination.value.total else |hotels|,
             pagination :=
               if reply.pagination.Some? then Some(PaginationAfterLoadMore(current.pagination, reply.pagination, |hotels|))
               else if current.pagination.Some? then Some(current.pagination.value.(hasMore := false, nextOffset := None))
               else None,
             searchIds := current.searchIds + Stamp(reply.(hotels := added)))
  }

  function MoreFinished(s: Screen, tenant: string, generation: nat, current: Shown, outcome: Outcome): Screen {
    var body :=
      if outcome.Thrown? then (if generation == s.run.generation then s.(loadMoreError := true) else s)
      else if tenant == "" || generation != s.run.generation then s
      else if !IsCompleted(outcome.reply.status) then s.(loadMoreError := true)
      else if NewHotels(Ids(current.hotels), outcome.reply.hotels) == [] && outcome.reply.pagination.Some? && outcome.reply.pagination.value.hasMore then
        s.(loadMoreError := true)
      else s.(result := Some(Grown(current, outcome.reply)));
    PagingSettled(body, generation)
  }

  function Finished(s: Screen, tenant: string, task: Task, outcome: Outcome): Screen {
    match task
    case SearchTask(generation, criteria, previous) => SearchFinished(s, tenant, generation, criteria, previous, outcome)
    case PageTask(generation, current, _) => PageFinished(s, tenant, generation, current, outcome)
    case MoreTask(generation, current, _) => MoreFinished(s, tenant, generation, current, outcome)
  }

  // ----- the component

  class Portal {
    const tenant: string
    var searchGeneration: nat
    var searchingRef: bool
    var searching: bool
    var loadingMore: bool
    var searchResult: Option<Shown>
    var searchFailed: bool
    var refreshError: Notice
    var loadMoreError: bool

    function View(): Screen
      reads this
    {
      Screen(Run(searchGeneration, searchingRef), searching, loadingMore, searchResult, searchFailed, refreshError, loadMoreError)
    }

    constructor (tenant: string)
      ensures this.tenant == tenant && View() == FRESH
    {
      this.tenant := tenant;
      searchGeneration, searchingRef, searching, loadingMore := 0, false, false, false;
      searchResult, searchFailed, refreshError, loadMoreError := None, false, NoNotice, false;
    }

    method NoteCriteriaEdit()
      modifies this
      ensures View() == Edited(old(View()))
    {
      var next := Invalidate(Run(searchGeneration, searchingRef));
      searchGeneration := next.generation;
      searchingRef := false;
      searching := false;
      loadingMore := false;
      searchResult := None;
      refreshError := NoNotice;
      loadMoreError := false;
    }

    method BeginSearch(criteria: Criteria, rendered: Option<Shown>) returns (task: Option<Task>)
      modifies this
      ensures Started(View(), task) == SearchStarted(old(View()), criteria, rendered)
    {
      var started := Begin(Run(searchGeneration, searchingRef));
      if started.None? {
        return None;
      }
      searchGeneration := started.value.generation;
      searchingRef := true;
      var previous := rendered;
      searching := true;
      refreshError := NoNotice;
      loadMoreError := false;
      loadingMore := false;
      task := Some(SearchTask(started.value.generation, criteria, previous));
    }

    /** `changeCriteria` around `applySort`, whose handlers both see the list of the render they belong to. */
    method ChangeSort(criteria: Criteria) returns (task: Option<Task>)
      modifies this
      ensures Started(View(), task) == Resorted(old(View()), criteria)
    {
      var rendered := searchResult;
      NoteCriteriaEdit();
      if rendered.None? {
        return None;
      }
      task := BeginSearch(criteria, rendered);
    }

    method FinishSearch(generation: nat, criteria: Criteria, previous: Option<Shown>, outcome: Outcome)
      modifies this
      ensures View() == SearchFinished(old(View()), tenant, generation, criteria, previous, outcome)
    {
      var current := Settle(Run(searchGeneration, searchingRef), generation).apply;
      var thrown := outcome.Thrown?;
      if !thrown && tenant != "" && current {
        var reply := outcome.reply;
        if !ReplaceSearchResult(previous.Some?, reply.status) {
          searchFailed := true;
          refreshError := FailureNotice(reply);
        } else {
          searchResult := Some(ShownReply(criteria, reply));
          refreshError := NoNotice;
          thrown := ThrowsLate(outcome);
          if !thrown {
            searchFailed := reply.status == ProviderUnavailable;
          }
        }
      }
      if thrown && current {
        searchFailed := true;
        if previous.Some? {
          refreshError := StillPrevious;
        }
      }
      if Settle(Run(searchGeneration, searchingRef), generation).apply {
        searchingRef := false;
        searching := false;
      }
    }

    method BeginPage(offset: int) returns (task: Option<Task>)
      modifies this
      ensures Started(View(), task) == PageStarted(old(View()), offset)
    {
      if searchResult.None? || offset < 0 || loadingMore || searchingRef {
        return None;
      }
      task := Some(PageTask(searchGeneration, searchResult.value, offset));
      loadingMore := true;
      loadMoreError := false;
    }

    method FinishPage(generation: nat, current: Shown, outcome: Outcome)
      modifies this
      ensures View() == PageFinished(old(View()), tenant, generation, current, outcome)
    {
      if outcome.Thrown? {
        if generation == searchGeneration {
          loadMoreError := true;
        }
      } else if tenant != "" && generation == searchGeneration {
        var next := outcome.reply;
        if IsRequestFailure(next.status) || next.status == MappingUnavailable {
          loadMoreError := true;
        } else {
          searchResult := Some(ShownReply(current.request, next));
        }
      }
      if generation == searchGeneration {
        loadingMore := false;
      }
    }

    method BeginLoadMore() returns (task: Option<Task>)
      modifies this
      ensures Started(View(), task) == MoreStarted(old(View()))
    {
      if searchResult.None? || searchResult.value.pagination.None? {
        return None;
      }
      var pagination := searchResult.value.pagination.value;
      if !pagination.hasMore || pagination.nextOffset.None? || loadingMore || searchingRef {
        return None;
      }
      task := Some(MoreTask(searchGeneration, searchResult.value, pagination.nextOffset.value));
      loadingMore := true;
      loadMoreError := false;
    }

    method FinishLoadMore(generation: nat, current: Shown, outcome: Outcome)
      modifies this
      ensures View() == MoreFinished(old(View()), tenant, generation, current, outcome)
    {
      if outcome.Thrown? {
        if generation == searchGeneration {
          loadMoreError := true;
        }
      } else if tenant != "" && generation == searchGeneration {
        var next := outcome.reply;
        if !IsCompleted(next.status) {
          loadMoreError := true;
        } else {
          var merged, added := AppendHotelPage(current.hotels, next.hotels);
          if |added| == 0 && next.pagination.Some? && next.pagination.value.hasMore {
            loadMoreError := true;
          } else {
            var searchIds := current.searchIds + Stamp(next.(hotels := added));
            var total := if next.pagination.Some? then next.pagination.value.total else |merged|;
            var pagination :=
              if next.pagination.Some? then Some(PaginationAfterLoadMore(current.pagination, next.pagination, |merged|))
              else if current.pagination.Some? then Some(current.pagination.value.(hasMore := false, nextOffset := None))
              else None;
            searchResult := Some(current.(hotels := merged, total := total, pagination := pagination, searchIds := searchIds));
          }
        }
      }
      if generation == searchGeneration {
        loadingMore := false;
      }
    }
  }

  // ----- every interleaving

  datatype Event =
    | Edit
    | Search(criteria: Criteria)
    | Resort(criteria: Criteria)
    | Jump(offset: int)
    | LoadMore
    | Finish(id: nat, outcome: Outcome)

  /** A reply that arrived, and the criteria of the request it answers. */
  datatype Answer = Answer(criteria: Criteria, reply: Reply)

  /** The screen, the requests in flight, and (for the proofs) every reply that arrived. */
  datatype System = System(tenant: string, screen: Screen, tasks: map<nat, Task>, nextId: nat, answers: set<Answer>)

  function Start(tenant: string): System {
    System(tenant, FRESH, map[], 0, {})
  }

  function Criterion(task: Task): Criteria {
    if task.SearchTask? then task.criteria else task.current.request
  }

  function Launched(y: System, started: Started): System {
    if started.task.None? then y.(screen := started.screen)
    else y.(screen := started.screen, tasks := y.tasks[y.nextId := started.task.value], nextId := y.nextId + 1)
  }

  function Step(y: System, e: Event): System {
    match e
    case Edit => y.(screen := Edited(y.screen))
    case Search(criteria) => Launched(y, SearchStarted(y.screen, criteria, y.screen.result))
    case Resort(criteria) => Launched(y, Resorted(y.screen, criteria))
    case Jump(offset) => Launched(y, PageStarted(y.screen, offset))
    case LoadMore => Launched(y, MoreStarted(y.screen))
    case Finish(id, outcome) =>
      if id !in y.tasks then y
      else
        y.(screen := Finished(y.screen, y.tenant, y.tasks[id], outcome),
           tasks := y.tasks - {id},
           answers := if outcome.Thrown? then y.answers else y.answers + {Answer(Criterion(y.tasks[id]), outcome.reply)})
  }

  function After(y: System, events: seq<Event>): System {
    if events == [] then y else Step(After(y, events[..|events| - 1]), events[|events| - 1])
  }

  /** The request in flight that may still write the screen. */
  predicate IsCurrent(y: System, id: nat) {
    id in y.tasks && y.tasks[id].generation == y.screen.run.generation
  }

  /** The list that a request in flight captured. */
  function CapturedList(task: Task): Option<Shown> {
    if task.SearchTask? then task.previous else Some(task.current)
  }

  /** A list on screen is the one that was captured; but a search may have captured a list that is no longer there. */
  predicate Captured(task: Task, result: Option<Shown>) {
    result == CapturedList(task) || (task.SearchTask? && result.None?)
  }

  /** Who may write, and what the writer believes. */
  ghost predicate Authority(y: System) {
    && y.screen.searchingShown == y.screen.run.searching
    && (forall id | id in y.tasks :: id < y.nextId && y.tasks[id].generation <= y.screen.run.generation)
    && (forall id, id' | IsCurrent(y, id) && IsCurrent(y, id') :: id == id')
    && (y.screen.run.searching <==> exists id :: IsCurrent(y, id) && y.tasks[id].SearchTask?)
    && (y.screen.loadingMore <==> exists id :: IsCurrent(y, id) && !y.tasks[id].SearchTask?)
    && (forall id | IsCurrent(y, id) :: Captured(y.tasks[id], y.screen.result))
  }

  function RecordedId(shown: Shown, hotelId: string): Option<string> {
    if hotelId in shown.searchIds then Some(shown.searchIds[hotelId]) else None
  }

  /** Every shown hotel came in a reply to the list's own request, and its recorded search is the search of that reply. */
  ghost predicate Sourced(shown: Shown, answers: set<Answer>) {
    && shown.searchIds.Keys <= Ids(shown.hotels)
    && (forall h | h in shown.hotels ::
          exists a :: a in answers && a.criteria == shown.request && h in a.reply.hotels && RecordedId(shown, h.hotelId) == Contribution(a.reply))
  }

  ghost predicate ServerPagesDistinct(answers: set<Answer>) {
    forall a | a in answers :: DistinctIds(a.reply.hotels)
  }

  ghost predicate Provenance(y: System) {
    y.screen.result.Some? ==>
      && Sourced(y.screen.result.value, y.answers)
      && (ServerPagesDistinct(y.answers) ==> DistinctIds(y.screen.result.value.hotels))
  }

  ghost predicate Inv(y: System) {
    Authority(y) && Provenance(y)
  }

  lemma {:induction false} StartInv(tenant: string)
    ensures Inv(Start(tenant))
  {
  }

  /** A launched request is the only one that can be current, when none was before. */
  lemma LaunchAuthority(y: System, started: Started)
    requires Authority(y) && started.task.Some?
    requires forall id | id in y.tasks :: y.tasks[id].generation < started.screen.run.generation || !IsCurrent(y, id)
    requires started.screen.run.generation >= y.screen.run.generation
    requires started.task.value.generation == started.screen.run.generation
    requires Captured(started.task.value, started.screen.result)
    requires started.screen.searchingShown == started.screen.run.searching == started.task.value.SearchTask?
    requires started.screen.loadingMore == !started.task.value.SearchTask?
    ensures Authority(Launched(y, started))
  {
    var z := Launched(y, started);
    assert IsCurrent(z, y.nextId);
    assert forall id | id in y.tasks :: z.tasks[id] == y.tasks[id];
  }

  lemma SearchFinishedControls(s: Screen, tenant: string, generation: nat, criteria: Criteria, previous: Option<Shown>, outcome: Outcome)
    ensures var t := SearchFinished(s, tenant, generation, criteria, previous, outcome);
            && t.run.generation == s.run.generation && t.loadingMore == s.loadingMore
            && if generation == s.run.generation then !t.run.searching && !t.searchingShown else t == s
  {
    hide ShownReply, ReplaceSearchResult, IsCompleted, FailureNotice;
  }

  lemma PageFinishedControls(s: Screen, tenant: string, generation: nat, current: Shown, outcome: Outcome)
    ensures var t := PageFinished(s, tenant, generation, current, outcome);
            && t.run == s.run && t.searchingShown == s.searchingShown
            && if generation == s.run.generation then !t.loadingMore else t == s
  {
    hide ShownReply, IsRequestFailure;
  }

  lemma MoreFinishedControls(s: Screen, tenant: string, generation: nat, current: Shown, outcome: Outcome)
    ensures var t := MoreFinished(s, tenant, generation, current, outcome);
            && t.run == s.run && t.searchingShown == s.searchingShown
            && if generation == s.run.generation then !t.loadingMore else t == s
  {
    hide Grown, NewHotels, IsCompleted;
  }

  /** A finished request frees the control it held; a stale one leaves the screen alone. */
  lemma FinishedControls(s: Screen, tenant: string, task: Task, outcome: Outcome)
    ensures var t := Finished(s, tenant, task, outcome);
            && t.run.generation == s.run.generation
            && (task.generation != s.run.generation ==> t == s)
            && (task.generation == s.run.generation && task.SearchTask? ==>
                  !t.run.searching && !t.searchingShown && t.loadingMore == s.loadingMore)
            && (task.generation == s.run.generation && !task.SearchTask? ==>
                  t.run == s.run && t.searchingShown == s.searchingShown && !t.loadingMore)
  {
    hide SearchFinished, PageFinished, MoreFinished;
    match task
    case SearchTask(generation, criteria, previous) => SearchFinishedControls(s, tenant, generation, criteria, previous, outcome);
    case PageTask(generation, current, _) => PageFinishedControls(s, tenant, generation, current, outcome);
    case MoreTask(generation, current, _) => MoreFinishedControls(s, tenant, generation, current, outcome);
  }

  lemma FinishAuthority(y: System, id: nat, outcome: Outcome)
    requires Authority(y) && id in y.tasks
    ensures Authority(Step(y, Finish(id, outcome)))
  {
    hide Finished;
    var z := Step(y, Finish(id, outcome));
    FinishedControls(y.screen, y.tenant, y.tasks[id], outcome);
    assert forall i | IsCurrent(z, i) :: IsCurrent(y, i);
    if IsCurrent(y, id) {
      assert forall i :: !IsCurrent(z, i);
    } else {
      assert forall i | IsCurrent(y, i) :: IsCurrent(z, i) && z.tasks[i] == y.tasks[i];
    }
  }

  /** Every step keeps the rules about who may write. */
  lemma AuthorityKept(y: System, e: Event)
    requires Authority(y)
    ensures Authority(Step(y, e))
  {
    match e
    case Edit =>
      var z := Step(y, e);
      assert forall id :: !IsCurrent(z, id);
    case Search(criteria) =>
      if !y.screen.run.searching {
        LaunchAuthority(y, SearchStarted(y.screen, criteria, y.screen.result));
      }
    case Resort(criteria) =>
      if y.screen.result.Some? {
        LaunchAuthority(y, Resorted(y.screen, criteria));
      } else {
        var z := Step(y, e);
        assert forall id :: !IsCurrent(z, id);
      }
    case Jump(offset) =>
      if PageStarted(y.screen, offset).task.Some? {
        LaunchAuthority(y, PageStarted(y.screen, offset));
      }
    case LoadMore =>
      if MoreStarted(y.screen).task.Some? {
        LaunchAuthority(y, MoreStarted(y.screen));
      }
    case Finish(id, outcome) =>
      if id in y.tasks {
        FinishAuthority(y, id, outcome);
      }
  }

  lemma SourcedMonotone(shown: Shown, answers: set<Answer>, more: set<Answer>)
    requires Sourced(shown, answers) && answers <= more
    ensures Sourced(shown, more)
  {
    forall h | h in shown.hotels
      ensures exists a :: a in more && a.criteria == shown.request && h in a.reply.hotels && RecordedId(shown, h.hotelId) == Contribution(a.reply)
    {
      var a :| a in answers && a.criteria == shown.request && h in a.reply.hotels && RecordedId(shown, h.hotelId) == Contribution(a.reply);
    }
  }

  lemma ReplySourced(request: Criteria, reply: Reply, answers: set<Answer>)
    requires Answer(request, reply) in answers
    ensures Sourced(ShownReply(request, reply), answers)
  {
    var shown := ShownReply(request, reply);
    forall h | h in shown.hotels
      ensures exists a :: a in answers && a.criteria == shown.request && h in a.reply.hotels && RecordedId(shown, h.hotelId) == Contribution(a.reply)
    {
      assert h.hotelId in Ids(reply.hotels);
      assert RecordedId(shown, h.hotelId) == Contribution(Answer(request, reply).reply);
    }
  }

  /** Appending a page keeps the sources of the shown hotels, and gives the new ones theirs. */
  lemma GrownSourced(current: Shown, reply: Reply, answers: set<Answer>)
    requires Sourced(current, answers) && Answer(current.request, reply) in answers
    ensures Sourced(Grown(current, reply), answers)
    ensures DistinctIds(current.hotels) ==> DistinctIds(Grown(current, reply).hotels)
  {
    GrownIsDistinct(current, reply);
    hide Grown, Ids, DistinctIds;
    var grown := Grown(current, reply);
    forall h | h in grown.hotels
      ensures exists a :: a in answers && a.criteria == grown.request && h in a.reply.hotels && RecordedId(grown, h.hotelId) == Contribution(a.reply)
    {
      GrownIds(current, reply, h);
      if h in current.hotels {
        var a :| a in answers && a.criteria == current.request && h in a.reply.hotels && RecordedId(current, h.hotelId) == Contribution(a.reply);
      } else {
        assert h in Answer(current.request, reply).reply.hotels;
      }
    }
  }

  lemma GrownIsDistinct(current: Shown, reply: Reply)
    requires current.searchIds.Keys <= Ids(current.hotels)
    ensures Grown(current, reply).request == current.request && Grown(current, reply).searchIds.Keys <= Ids(Grown(current, reply).hotels)
    ensures DistinctIds(current.hotels) ==> DistinctIds(Grown(current, reply).hotels)
  {
    var added := NewHotels(Ids(current.hotels), reply.hotels);
    NewHotelsAreNew(Ids(current.hotels), reply.hotels);
    assert forall h | h in current.hotels :: h.hotelId in Ids(current.hotels);
    assert Ids(current.hotels + added) == Ids(current.hotels) + Ids(added);
  }

  /** A shown hotel keeps its recorded search, and a new one gets that of the reply. */
  lemma GrownIds(current: Shown, reply: Reply, h: Hotel)
    requires h in Grown(current, reply).hotels && current.searchIds.Keys <= Ids(current.hotels)
    ensures h in current.hotels ==> RecordedId(Grown(current, reply), h.hotelId) == RecordedId(current, h.hotelId)
    ensures h !in current.hotels ==> h in reply.hotels && RecordedId(Grown(current, reply), h.hotelId) == Contribution(reply)
  {
    var added := NewHotels(Ids(current.hotels), reply.hotels);
    NewHotelsAreNew(Ids(current.hotels), reply.hotels);
    assert h in current.hotels ==> h.hotelId in Ids(current.hotels) && h.hotelId !in Ids(added);
    assert h !in current.hotels ==> h in added && h.hotelId in Ids(added);
  }

  lemma SearchResult(s: Screen, tenant: string, generation: nat, criteria: Criteria, previous: Option<Shown>, outcome: Outcome)
    ensures var t := SearchFinished(s, tenant, generation, criteria, previous, outcome);
            || t.result == s.result
            || (generation == s.run.generation && !outcome.Thrown? && t.result == Some(ShownReply(criteria, outcome.reply)))
  {
    hide ShownReply, IsCompleted, ThrowsLate, ReplaceSearchResult, FailureNotice;
  }

  /** What a finished request may write: its own reply, or its captured list grown by its reply. */
  lemma FinishedResult(s: Screen, tenant: string, task: Task, outcome: Outcome)
    ensures var t := Finished(s, tenant, task, outcome);
            || t.result == s.result
            || (task.generation == s.run.generation && !outcome.Thrown? &&
                t.result == Some(if task.MoreTask? then Grown(task.current, outcome.reply) else ShownReply(Criterion(task), outcome.reply)))
  {
    hide ShownReply, Grown, Stamp, Ids, NewHotels, IsRequestFailure, IsCompleted, SearchFinished;
    match task
    case SearchTask(generation, criteria, previous) => SearchResult(s, tenant, generation, criteria, previous, outcome);
    case PageTask(_, _, _) =>
    case MoreTask(_, _, _) =>
  }

  /** Every step keeps the sources of the list. */
  lemma ProvenanceKept(y: System, e: Event)
    requires Authority(y) && Provenance(y)
    ensures Provenance(Step(y, e))
  {
    hide Finished, Grown, ShownReply, Sourced;
    if e.Finish? && e.id in y.tasks {
      var z := Step(y, e);
      var task := y.tasks[e.id];
      FinishedResult(y.screen, y.tenant, task, e.outcome);
      if y.screen.result.Some? {
        SourcedMonotone(y.screen.result.value, y.answers, z.answers);
      }
      if z.screen.result != y.screen.result {
        assert IsCurrent(y, e.id);
        assert Answer(Criterion(task), e.outcome.reply) in z.answers;
        if task.MoreTask? {
          GrownSourced(task.current, e.outcome.reply, z.answers);
        } else {
          ReplySourced(Criterion(task), e.outcome.reply, z.answers);
          ReplyHotels(Criterion(task), e.outcome.reply);
        }
      }
    }
  }

  lemma ReplyHotels(request: Criteria, reply: Reply)
    ensures ShownReply(request, reply).hotels == reply.hotels
  {
  }

  /** The invariant holds after every run, whatever is clicked and in whatever order replies arrive, fail or are late. */
  lemma {:induction false} EveryRun(tenant: string, events: seq<Event>)
    ensures Inv(After(Start(tenant), events))
  {
    if events == [] {
      StartInv(tenant);
    } else {
      var before := After(Start(tenant), events[..|events| - 1]);
      EveryRun(tenant, events[..|events| - 1]);
      AuthorityKept(before, events[|events| - 1]);
      ProvenanceKept(before, events[|events| - 1]);
    }
  }

  // ----- what the invariant means

  /** `searching` is shown exactly while one search in flight carries the current generation, and there is never a second one. */
  lemma SearchingIsExact(tenant: string, events: seq<Event>)
    ensures var y := After(Start(tenant), events);
            && (y.screen.searchingShown <==> exists id :: IsCurrent(y, id) && y.tasks[id].SearchTask?)
            && (y.screen.loadingMore <==> exists id :: IsCurrent(y, id) && !y.tasks[id].SearchTask?)
            && !(y.screen.searchingShown && y.screen.loadingMore)
            && (forall id, id' | IsCurrent(y, id) && IsCurrent(y, id') :: id == id')
  {
    EveryRun(tenant, events);
  }

  /** Only an edit, or a request carrying the current generation, ever changes the list; a late reply changes nothing on screen. */
  lemma OnlyTheCurrentWriterWrites(y: System, e: Event)
    ensures Step(y, e).screen.result != y.screen.result ==> e.Edit? || e.Resort? || (e.Finish? && IsCurrent(y, e.id))
    ensures e.Finish? && !IsCurrent(y, e.id) ==> Step(y, e).screen == y.screen
  {
  }

  // ----- which list a search captured

  /** The searches of a run that a sort picked over a list has started: the edit took that list down in the same handler. */
  function Resorts(tenant: string, events: seq<Event>): set<nat> {
    if events == [] then {}
    else
      var front, e := events[..|events| - 1], events[|events| - 1];
      var y := After(Start(tenant), front);
      Resorts(tenant, front) + if e.Resort? && y.screen.result.Some? then {y.nextId} else {}
  }

  /** A search that may still write captured the list on screen, unless it is one of those: then it captured a list, and none is there. */
  ghost predicate CapturesKnown(y: System, resorts: set<nat>) {
    && (forall id | id in resorts :: id < y.nextId)
    && (forall id | IsCurrent(y, id) && y.tasks[id].SearchTask? ::
          if id in resorts then y.tasks[id].previous.Some? && y.screen.result.None? else y.tasks[id].previous == y.screen.result)
  }

  lemma CapturesAfterReply(y: System, id: nat, outcome: Outcome, resorts: set<nat>)
    requires Authority(y) && CapturesKnown(y, resorts) && id in y.tasks
    ensures CapturesKnown(Step(y, Finish(id, outcome)), resorts)
  {
    hide Finished;
    var z := Step(y, Finish(id, outcome));
    FinishedControls(y.screen, y.tenant, y.tasks[id], outcome);
    assert forall i | IsCurrent(z, i) :: IsCurrent(y, i) && i != id && z.tasks[i] == y.tasks[i];
    if IsCurrent(y, id) {
      assert forall i :: !IsCurrent(z, i);
    }
  }

  lemma CapturesAfterClick(y: System, e: Event, resorts: set<nat>)
    requires Authority(y) && CapturesKnown(y, resorts) && !e.Finish?
    ensures CapturesKnown(Step(y, e), resorts + if e.Resort? && y.screen.result.Some? then {y.nextId} else {})
  {
    var z := Step(y, e);
    assert forall id | id in y.tasks :: id != y.nextId && z.tasks[id] == y.tasks[id];
    match e
    case Edit => assert forall id :: !IsCurrent(z, id);
    case Resort(_) => assert forall id | IsCurrent(z, id) :: id == y.nextId;
    case Search(_) => assert !y.screen.run.searching ==> forall id | IsCurrent(z, id) :: id == y.nextId;
    case Jump(_) => assert forall id | IsCurrent(z, id) && id != y.nextId :: IsCurrent(y, id);
    case LoadMore => assert forall id | IsCurrent(z, id) && id != y.nextId :: IsCurrent(y, id);
    case Finish(_, _) =>
  }

  lemma CapturesStep(y: System, e: Event, resorts: set<nat>)
    requires Authority(y) && CapturesKnown(y, resorts)
    ensures CapturesKnown(Step(y, e), resorts + if e.Resort? && y.screen.result.Some? then {y.nextId} else {})
  {
    hide Step;
    if !e.Finish? {
      CapturesAfterClick(y, e, resorts);
    } else if e.id in y.tasks {
      CapturesAfterReply(y, e.id, e.outcome, resorts);
      assert resorts + {} == resorts;
    } else {
      assert Step(y, e) == y by { NothingFinished(y, e); }
      assert resorts + {} == resorts;
    }
  }

  lemma NothingFinished(y: System, e: Event)
    requires e.Finish? && e.id !in y.tasks
    ensures Step(y, e) == y
  {
  }

  lemma {:induction false} CapturesAreKnown(tenant: string, events: seq<Event>)
    ensures CapturesKnown(After(Start(tenant), events), Resorts(tenant, events))
  {
    if events != [] {
      var front := events[..|events| - 1];
      CapturesAreKnown(tenant, front);
      EveryRun(tenant, front);
      CapturesStep(After(Start(tenant), front), events[|events| - 1], Resorts(tenant, front));
    }
  }

  /**
   * In every run a request that may still write captured the list on screen, exactly when it is not a search that a sort
   * picked over a list has started; when it is, it captured a list and there is none on screen.
   */
  lemma {:induction false} CapturedIsOnScreenIff(tenant: string, events: seq<Event>, id: nat)
    requires IsCurrent(After(Start(tenant), events), id)
    ensures var y, resorted := After(Start(tenant), events), id in Resorts(tenant, events);
            && (CapturedList(y.tasks[id]) == y.screen.result <==> !resorted)
            && (resorted ==> y.tasks[id].SearchTask? && CapturedList(y.tasks[id]).Some? && y.screen.result.None?)
  {
    CapturesAreKnown(tenant, events);
    EveryRun(tenant, events);
    OnlySearchesResort(tenant, events, id);
  }

  lemma {:induction false} OnlySearchesResort(tenant: string, events: seq<Event>, id: nat)
    ensures id in Resorts(tenant, events) && id in After(Start(tenant), events).tasks ==> After(Start(tenant), events).tasks[id].SearchTask?
    ensures forall i | i in After(Start(tenant), events).tasks || i in Resorts(tenant, events) :: i < After(Start(tenant), events).nextId
  {
    if events != [] {
      var front, e := events[..|events| - 1], events[|events| - 1];
      OnlySearchesResort(tenant, front, id);
      hide Finished;
      var y := After(Start(tenant), front);
      assert e.Resort? && y.screen.result.Some? ==> Resorted(y.screen, e.criteria).task.Some? && Resorted(y.screen, e.criteria).task.value.SearchTask?;
    }
  }

  /**
   * In every run, when a request that may still write throws before its reply is written, or meets an unavailable supplier after
   * capturing a list, the list on screen is left exactly as it was and the controls are freed. It is the captured list, unless
   * the request is a search that a sort picked over a list has started: then the captured list is lost and none is shown.
   */
  lemma {:induction false} FailureKeepsTheList(tenant: string, events: seq<Event>, id: nat, outcome: Outcome)
    requires IsCurrent(After(Start(tenant), events), id)
    requires outcome.Thrown? ||
             (outcome.reply.status == ProviderUnavailable &&
              (After(Start(tenant), events).screen.result.Some? || id in Resorts(tenant, events)))
    ensures var y, z := After(Start(tenant), events), After(Start(tenant), events + [Finish(id, outcome)]);
            && z.screen.result == y.screen.result
            && (z.screen.result == CapturedList(y.tasks[id]) <==> id !in Resorts(tenant, events))
            && (id in Resorts(tenant, events) ==> z.screen.result.None?)
            && !z.screen.run.searching && !z.screen.searchingShown && !z.screen.loadingMore
  {
    var y := After(Start(tenant), events);
    EveryRun(tenant, events);
    CapturedIsOnScreenIff(tenant, events, id);
    FrontOf(events, Finish(id, outcome));
    hide Finished, Resorts;
    FinishedControls(y.screen, y.tenant, y.tasks[id], outcome);
    FailedResult(y.screen, y.tenant, y.tasks[id], outcome);
  }

  /** A failed request writes no list, when it captured one. */
  lemma FailedResult(s: Screen, tenant: string, task: Task, outcome: Outcome)
    requires outcome.Thrown? || (outcome.reply.status == ProviderUnavailable && CapturedList(task).Some?)
    ensures Finished(s, tenant, task, outcome).result == s.result
  {
    hide ShownReply, Grown, Stamp, Ids, NewHotels;
    match task
    case SearchTask(_, _, _) =>
    case PageTask(_, _, _) =>
    case MoreTask(_, _, _) =>
  }

  predicate NoNoticeWhileSearching(s: Screen) {
    s.run.searching ==> s.refreshError == NoNotice
  }

  lemma NoticeStep(y: System, e: Event)
    requires Authority(y) && NoNoticeWhileSearching(y.screen)
    ensures NoNoticeWhileSearching(Step(y, e).screen)
  {
    if e.Finish? && e.id in y.tasks && IsCurrent(y, e.id) && y.tasks[e.id].SearchTask? {
      assert !Step(y, e).screen.run.searching;
    }
  }

  /** While a search runs no refresh notice is up. */
  lemma {:induction false} SearchingClearsNotice(tenant: string, events: seq<Event>)
    ensures NoNoticeWhileSearching(After(Start(tenant), events).screen)
  {
    if events != [] {
      SearchingClearsNotice(tenant, events[..|events| - 1]);
      EveryRun(tenant, events[..|events| - 1]);
      NoticeStep(After(Start(tenant), events[..|events| - 1]), events[|events| - 1]);
    }
  }

  // ----- the notice about the previous successful search

  /** Which request wrote the list, and the status the list has since. */
  datatype Write = Write(id: nat, status: Status)

  /** A request that carries the current generation writes the list with this outcome. */
  predicate Writes(task: Task, tenant: string, outcome: Outcome) {
    && tenant != "" && !outcome.Thrown?
    && match task
       case SearchTask(_, _, previous) => ReplaceSearchResult(previous.Some?, outcome.reply.status)
       case PageTask(_, _, _) => !IsRequestFailure(outcome.reply.status) && outcome.reply.status != MappingUnavailable
       case MoreTask(_, current, _) =>
         && IsCompleted(outcome.reply.status)
         && !(NewHotels(Ids(current.hotels), outcome.reply.hotels) == [] && outcome.reply.pagination.Some? && outcome.reply.pagination.value.hasMore)
  }

  function WrittenStatus(task: Task, reply: Reply): Status {
    if task.MoreTask? then task.current.status else reply.status
  }

  /** The last write of the list in a run since the last edit. */
  function LastWrite(tenant: string, events: seq<Event>): Option<Write> {
    if events == [] then None
    else
      var front, e := events[..|events| - 1], events[|events| - 1];
      var y := After(Start(tenant), front);
      if e.Edit? || e.Resort? then None
      else if e.Finish? && IsCurrent(y, e.id) && Writes(y.tasks[e.id], tenant, e.outcome)
      then Some(Write(e.id, WrittenStatus(y.tasks[e.id], e.outcome.reply)))
      else LastWrite(tenant, front)
  }

  lemma SearchStatus(s: Screen, tenant: string, task: Task, outcome: Outcome)
    requires task.SearchTask? && task.generation == s.run.generation
    ensures var t := SearchFinished(s, tenant, task.generation, task.criteria, task.previous, outcome);
            if Writes(task, tenant, outcome) then t.result.Some? && t.result.value.status == outcome.reply.status else t.result == s.result
  {
    hide IsCompleted, ReplaceSearchResult, Stamp;
  }

  lemma FinishedStatus(s: Screen, tenant: string, task: Task, outcome: Outcome)
    requires task.generation == s.run.generation
    ensures var t := Finished(s, tenant, task, outcome);
            if Writes(task, tenant, outcome) then t.result.Some? && t.result.value.status == WrittenStatus(task, outcome.reply)
            else t.result == s.result
  {
    hide Ids, NewHotels, IsRequestFailure, IsCompleted, ReplaceSearchResult, Stamp, SearchFinished;
    match task
    case SearchTask(_, _, _) => SearchStatus(s, tenant, task, outcome);
    case PageTask(_, _, _) =>
    case MoreTask(_, _, _) =>
  }

  lemma FrontOf(events: seq<Event>, e: Event)
    ensures (events + [e])[..|events + [e]| - 1] == events && (events + [e])[|events + [e]| - 1] == e
  {
  }

  /** In every run the list on screen is the last write since the last edit, with its status. */
  lemma {:induction false} ListIsTheLastWrite(tenant: string, events: seq<Event>)
    ensures var y := After(Start(tenant), events);
            && (y.screen.result.Some? <==> LastWrite(tenant, events).Some?)
            && (y.screen.result.Some? ==> y.screen.result.value.status == LastWrite(tenant, events).value.status)
            && (LastWrite(tenant, events).Some? ==> LastWrite(tenant, events).value.id !in y.tasks && LastWrite(tenant, events).value.id < y.nextId)
  {
    if events != [] {
      var front, e := events[..|events| - 1], events[|events| - 1];
      var y := After(Start(tenant), front);
      ListIsTheLastWrite(tenant, front);
      EveryRun(tenant, front);
      TenantFixed(tenant, front);
      hide Finished, Writes, WrittenStatus;
      if e.Finish? && e.id in y.tasks {
        if IsCurrent(y, e.id) {
          FinishedStatus(y.screen, y.tenant, y.tasks[e.id], e.outcome);
        } else {
          FinishedControls(y.screen, y.tenant, y.tasks[e.id], e.outcome);
        }
      }
    }
  }

  /** The outcomes of a search over an earlier list that raise the default sentence. */
  predicate Complains(outcome: Outcome) {
    || outcome.Thrown?
    || (outcome.reply.status == ProviderUnavailable && outcome.reply.message == "")
    || ThrowsLate(outcome)
  }

  /** The hotels below are what an earlier request left there, and that request succeeded. */
  predicate StillThePreviousSuccess(tenant: string, events: seq<Event>, id: nat) {
    var write := LastWrite(tenant, events);
    write.Some? && write.value.id != id && IsCompleted(write.value.status)
  }

  /**
   * The notice "The hotels below are still the previous successful search" after a search finished: it is up exactly when a list
   * was there, or was taken down by the sort that started the search, and the outcome is one of those. It is true exactly when
   * the search was not started by such a sort, the throw did not come after the new list was written, and the last reply that
   * wrote the list since the last edit had succeeded.
   */
  lemma {:induction false} NoticeIsTrueIff(tenant: string, events: seq<Event>, id: nat, outcome: Outcome)
    requires IsCurrent(After(Start(tenant), events), id) && After(Start(tenant), events).tasks[id].SearchTask?
    ensures var before, resorted := LastWrite(tenant, events), id in Resorts(tenant, events);
            var after := events + [Finish(id, outcome)];
            && (After(Start(tenant), after).screen.refreshError == StillPrevious <==> (before.Some? || resorted) && Complains(outcome))
            && ((before.Some? || resorted) && Complains(outcome) ==>
                  (StillThePreviousSuccess(tenant, after, id) <==> !resorted && !ThrowsLate(outcome) && IsCompleted(before.value.status)))
  {
    var y := After(Start(tenant), events);
    CapturedIsOnScreenIff(tenant, events, id);
    TenantFixed(tenant, events);
    SearchingClearsNotice(tenant, events);
    EveryRun(tenant, events);
    ListIsTheLastWrite(tenant, events);
    NoTenantNoList(tenant, events);
    FrontOf(events, Finish(id, outcome));
    SearchNotice(y.screen, tenant, y.tasks[id], outcome);
    hide Finished, IsCompleted, ShownReply, Resorts;
  }

  lemma SearchNotice(s: Screen, tenant: string, task: Task, outcome: Outcome)
    requires task.SearchTask? && task.generation == s.run.generation && s.refreshError == NoNotice
    requires tenant == "" ==> task.previous.None?
    ensures Finished(s, tenant, task, outcome).refreshError == StillPrevious <==> task.previous.Some? && Complains(outcome)
  {
    hide ShownReply, PageFinished, MoreFinished, Grown, Stamp, Ids, NewHotels;
  }

  lemma {:induction false} NoTenantNoList(tenant: string, events: seq<Event>)
    ensures tenant == "" ==> LastWrite(tenant, events) == None && Resorts(tenant, events) == {}
  {
    if events != [] {
      NoTenantNoList(tenant, events[..|events| - 1]);
      ListIsTheLastWrite(tenant, events[..|events| - 1]);
    }
  }

  /** The search that raised the default sentence that stands in a run, if it stands. */
  function Complainer(tenant: string, events: seq<Event>): Option<nat> {
    if events == [] then None
    else ComplainerAfter(tenant, events[..|events| - 1], events[|events| - 1], Complainer(tenant, events[..|events| - 1]))
  }

  function ComplainerAfter(tenant: string, front: seq<Event>, e: Event, before: Option<nat>): Option<nat> {
    var y := After(Start(tenant), front);
    match e
    case Edit => None
    case Resort(_) => None
    case Search(_) => if y.screen.run.searching then before else None
    case Finish(id, outcome) =>
      if !(IsCurrent(y, id) && y.tasks[id].SearchTask?) then before
      else if (LastWrite(tenant, front).Some? || id in Resorts(tenant, front)) && Complains(outcome) then Some(id)
      else None
    case _ => before
  }

  lemma PagingKeepsTheNotice(s: Screen, tenant: string, task: Task, outcome: Outcome)
    requires !task.SearchTask? || task.generation != s.run.generation
    ensures Finished(s, tenant, task, outcome).refreshError == s.refreshError
  {
    hide ShownReply, Grown, NewHotels, Ids;
  }

  lemma ClickedNotice(y: System, e: Event)
    requires !e.Finish?
    ensures Step(y, e).screen.refreshError
         == if e.Edit? || e.Resort? || (e.Search? && !y.screen.run.searching) then NoNotice else y.screen.refreshError
  {
  }

  lemma NoticeOfReply(tenant: string, front: seq<Event>, id: nat, outcome: Outcome)
    requires var y := After(Start(tenant), front); !(IsCurrent(y, id) && y.tasks[id].SearchTask?)
    ensures After(Start(tenant), front + [Finish(id, outcome)]).screen.refreshError == After(Start(tenant), front).screen.refreshError
  {
    var y := After(Start(tenant), front);
    FrontOf(front, Finish(id, outcome));
    hide Finished;
    if id in y.tasks {
      PagingKeepsTheNotice(y.screen, y.tenant, y.tasks[id], outcome);
    }
  }

  lemma {:induction false} NoticeStandsAfter(tenant: string, front: seq<Event>, e: Event, before: Option<nat>)
    requires After(Start(tenant), front).screen.refreshError == StillPrevious <==> before.Some?
    ensures After(Start(tenant), front + [e]).screen.refreshError == StillPrevious <==> ComplainerAfter(tenant, front, e, before).Some?
  {
    var y := After(Start(tenant), front);
    FrontOf(front, e);
    hide Step, LastWrite, Complains, StillThePreviousSuccess, Resorts;
    if e.Finish? {
      if IsCurrent(y, e.id) && y.tasks[e.id].SearchTask? {
        NoticeIsTrueIff(tenant, front, e.id, e.outcome);
      } else {
        NoticeOfReply(tenant, front, e.id, e.outcome);
      }
    } else {
      ClickedNotice(y, e);
    }
  }

  /** In every run the sentence stands exactly from the search that raised it to the next edit or search; paging leaves it up. */
  lemma {:induction false} NoticeStands(tenant: string, events: seq<Event>)
    ensures After(Start(tenant), events).screen.refreshError == StillPrevious <==> Complainer(tenant, events).Some?
  {
    if events != [] {
      var front, e := events[..|events| - 1], events[|events| - 1];
      NoticeStands(tenant, front);
      NoticeStandsAfter(tenant, front, e, Complainer(tenant, front));
      assert events == front + [e];
      hide After, ComplainerAfter, Start, Resorts, LastWrite, Complains;
    }
  }

  /** A run that ends with a search, its steps one by one. */
  lemma TwoSearches(criteria: Criteria, first: Outcome, second: Outcome) returns (events: seq<Event>, between: seq<Event>)
    requires !first.Thrown?
    ensures between == [Search(criteria), Finish(0, first), Search(criteria)] && events == between + [Finish(1, second)]
    ensures IsCurrent(After(Start("t"), between), 1) && After(Start("t"), between).tasks[1].SearchTask?
    ensures LastWrite("t", between) == Some(Write(0, first.reply.status))
  {
    between := [Search(criteria), Finish(0, first), Search(criteria)];
    events := between + [Finish(1, second)];
    var y1 := Step(Start("t"), between[0]);
    var y2 := Step(y1, between[1]);
    var y3 := Step(y2, between[2]);
    assert between[..2][..1] == [between[0]] && [between[0]][..0] == [];
    assert After(Start("t"), [between[0]]) == y1;
    assert After(Start("t"), between[..2]) == y2;
    assert After(Start("t"), between) == y3;
    assert IsCurrent(y1, 0) && y1.tasks[0].SearchTask?;
    assert LastWrite("t", between[..2]) == Some(Write(0, first.reply.status));
    assert y3.tasks[1].SearchTask?;
  }

  /** Two failures without a message of their own in a row: the notice stands over a list that never succeeded. */
  lemma NoticeOverAFailedList(criteria: Criteria) returns (events: seq<Event>)
    ensures After(Start("t"), events).screen.refreshError == StillPrevious && Complainer("t", events) == Some(1)
    ensures LastWrite("t", events) == Some(Write(0, ProviderUnavailable)) && !StillThePreviousSuccess("t", events, 1)
  {
    var failure := Replied(Reply(ProviderUnavailable, [], 0, None, None, ""));
    var between;
    events, between := TwoSearches(criteria, failure, failure);
    NoticeIsTrueIff("t", between, 1, failure);
    FrontOf(between, Finish(1, failure));
    TenantFixed("t", between);
    EveryRun("t", between);
    ListIsTheLastWrite("t", between);
    NoticeStands("t", events);
  }

  /** A search that succeeds but cannot be remembered: the notice stands over the list that this very search wrote. */
  lemma NoticeOverANewList(criteria: Criteria, first: Reply, second: Reply) returns (events: seq<Event>)
    requires IsCompleted(first.status) && IsCompleted(second.status)
    ensures After(Start("t"), events).screen.refreshError == StillPrevious && Complainer("t", events) == Some(1)
    ensures LastWrite("t", events) == Some(Write(1, second.status)) && !StillThePreviousSuccess("t", events, 1)
  {
    var between;
    events, between := TwoSearches(criteria, Replied(first), Unremembered(second));
    NoticeIsTrueIff("t", between, 1, Unremembered(second));
    FrontOf(between, Finish(1, Unremembered(second)));
    NoticeStands("t", events);
  }

  /**
   * What a reply to a search leaves on screen, also when remembering the search throws afterwards: its own list, unless it is a
   * unavailable supplier over a list, or of a search that a sort picked over a list has started; then what was there before.
   */
  lemma {:induction false} RepliesReplaceTheListIff(tenant: string, events: seq<Event>, id: nat, outcome: Outcome)
    requires var y := After(Start(tenant), events); IsCurrent(y, id) && y.tasks[id].SearchTask? && tenant != "" && !outcome.Thrown?
    ensures var y, z := After(Start(tenant), events), After(Start(tenant), events + [Finish(id, outcome)]);
            && z.screen.result ==
                 (if outcome.reply.status != ProviderUnavailable || (y.screen.result.None? && id !in Resorts(tenant, events))
                  then Some(ShownReply(y.tasks[id].criteria, outcome.reply)) else y.screen.result)
            && !z.screen.run.searching && !z.screen.searchingShown
  {
    CapturedIsOnScreenIff(tenant, events, id);
    FrontOf(events, Finish(id, outcome));
    TenantFixed(tenant, events);
    hide ShownReply, Resorts;
  }

  /** A run in which a sort is picked on the home page over a list, its steps one by one. */
  lemma SortedOverAList(criteria: Criteria, first: Reply) returns (events: seq<Event>)
    ensures var y := After(Start("t"), events);
            && events == [Search(criteria), Finish(0, Replied(first)), Resort(criteria)]
            && IsCurrent(y, 1) && y.tasks[1].SearchTask? && 1 in Resorts("t", events) && LastWrite("t", events) == None
  {
    events := [Search(criteria), Finish(0, Replied(first)), Resort(criteria)];
    var y1 := Step(Start("t"), events[0]);
    var y2 := Step(y1, events[1]);
    var y3 := Step(y2, events[2]);
    assert events[..2][..1] == [events[0]] && [events[0]][..0] == [];
    assert After(Start("t"), [events[0]]) == y1 && y1.tasks[0].SearchTask? && IsCurrent(y1, 0);
    assert After(Start("t"), events[..2]) == y2 && y2.screen.result.Some? && y2.nextId == 1;
    assert After(Start("t"), events) == y3 && y3.tasks[1].SearchTask?;
  }

  /**
   * A sort picked over a list, whose search meets an unavailable supplier: the list is gone, the failed search that a first search
   * would show is not there either, and the notice about the hotels below is raised over nothing.
   */
  lemma SortLosesTheList(criteria: Criteria, first: Reply) returns (events: seq<Event>)
    ensures var z := After(Start("t"), events).screen;
            z.result == None && z.searchFailed && z.refreshError == StillPrevious && !StillThePreviousSuccess("t", events, 1)
  {
    var failure := Replied(Reply(ProviderUnavailable, [], 0, None, None, ""));
    var between := SortedOverAList(criteria, first);
    events := between + [Finish(1, failure)];
    EveryRun("t", between);
    ListIsTheLastWrite("t", between);
    RepliesReplaceTheListIff("t", between, 1, failure);
    NoticeIsTrueIff("t", between, 1, failure);
    FrontOf(between, Finish(1, failure));
    CapturedIsOnScreenIff("t", between, 1);
    TenantFixed("t", between);
  }

  /** And when its search succeeds but cannot be remembered, the notice stands over the new list although none was there before. */
  lemma SortNoticeOverANewList(criteria: Criteria, first: Reply, second: Reply) returns (events: seq<Event>)
    requires IsCompleted(second.status)
    ensures After(Start("t"), events).screen.refreshError == StillPrevious
    ensures LastWrite("t", events) == Some(Write(1, second.status)) && !StillThePreviousSuccess("t", events, 1)
  {
    var between := SortedOverAList(criteria, first);
    events := between + [Finish(1, Unremembered(second))];
    NoticeIsTrueIff("t", between, 1, Unremembered(second));
    FrontOf(between, Finish(1, Unremembered(second)));
  }

  lemma {:induction false} TenantFixed(tenant: string, events: seq<Event>)
    ensures After(Start(tenant), events).tenant == tenant
  {
    if events != [] {
      TenantFixed(tenant, events[..|events| - 1]);
    }
  }

  /** After an edit a new search always starts at once, and nothing that was in flight can write any more. */
  lemma EditReleases(y: System, criteria: Criteria)
    requires Authority(y)
    ensures var z := Step(y, Edit);
            && (forall id :: !IsCurrent(z, id))
            && SearchStarted(z.screen, criteria, z.screen.result).task.Some?
            && IsCurrent(Step(z, Search(criteria)), z.nextId)
  {
  }

  /** Every hotel on screen was returned for the list's own request by the search recorded for it, and ids never repeat. */
  lemma ShownHotelsAreSourced(tenant: string, events: seq<Event>)
    ensures var y := After(Start(tenant), events);
            y.screen.result.Some? ==>
              && Sourced(y.screen.result.value, y.answers)
              && (ServerPagesDistinct(y.answers) ==> DistinctIds(y.screen.result.value.hotels))
  {
    EveryRun(tenant, events);
  }

  /** Loading more never drops, moves or re-attributes a hotel already shown, and keeps the request and the window start. */
  lemma GrowthIsConservative(current: Shown, reply: Reply)
    requires current.pagination.Some? && current.searchIds.Keys <= Ids(current.hotels)
    ensures var grown := Grown(current, reply);
            && current.hotels <= grown.hotels
            && grown.request == current.request
            && (forall id | id in current.searchIds :: RecordedId(grown, id) == RecordedId(current, id))
            && grown.pagination.Some? && grown.pagination.value.offset == current.pagination.value.offset
            && Ids(grown.hotels) == Ids(current.hotels) + Ids(reply.hotels)
  {
    NewHotelsAreNew(Ids(current.hotels), reply.hotels);
    var added := NewHotels(Ids(current.hotels), reply.hotels);
    assert Ids(current.hotels + added) == Ids(current.hotels) + Ids(added);
  }
}
