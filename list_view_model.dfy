/**
 * The product list screen's state machine. It starts in `Loading`; the
 * collection of the repository's list starts by showing `Loading`, every
 * emitted list is shown as `Success(list)`, and a failure of the stream
 * shows `Error(message)` and ends the collection for good.
 *
 * The stream is modelled as the sequence of events the collection sees;
 * `Run` folds them into the screen, and the class keeps its state equal to
 * the fold of the events delivered so far.
 */
module ListViewModel {
  import opened Wrappers
  import opened Products

  /** `ProductListState`. */
  datatype ListState =
    | Loading
    | Success(products: seq<Product>)
    | Error(message: string)

  const UnknownErrorMessage: string := "An unknown error occurred"

  /** Where the collection launched by `loadProducts()` is. */
  datatype Collection = NotStarted | Collecting | Ended

  /** What the collection sees: its start, one emitted list, or the failure of the stream. */
  datatype ListEvent =
    | Start
    | Emit(products: seq<Product>)
    | Failure(message: Option<string>)

  datatype Screen = Screen(collection: Collection, state: ListState)

  /** The screen the view model is created with: `MutableStateFlow(Loading)`. */
  const Initial: Screen := Screen(NotStarted, Loading)

  /** `onStart`, `collect` and `catch`; once the collection has ended nothing reaches it. */
  function Step(s: Screen, e: ListEvent): (r: Screen)
    ensures s.collection.Ended? ==> r == s
  {
    match e
    case Start => if s.collection.NotStarted? then Screen(Collecting, Loading) else s
    case Emit(xs) => if s.collection.Collecting? then Screen(Collecting, Success(xs)) else s
    case Failure(m) => if s.collection.Collecting? then Screen(Ended, Error(m.GetOr(UnknownErrorMessage))) else s
  }

  /**
   * The screen after the given events, oldest first. Until the first `Start`
   * the collection has not begun and the screen is the initial one.
   */
  function Run(events: seq<ListEvent>): (r: Screen)
    ensures r.collection.NotStarted? <==> Start !in events
    ensures r.collection.NotStarted? ==> r == Initial
    decreases |events|
  {
    if events == [] then Initial
    else
      var front := events[..|events| - 1];
      assert events == front + [events[|events| - 1]];
      Step(Run(front), events[|events| - 1])
  }

  /** The most recent list among the events, if any. */
  function LastEmission(events: seq<ListEvent>): (r: Option<seq<Product>>)
    decreases |events|
  {
    if events == [] then None
    else if events[|events| - 1].Emit? then Some(events[|events| - 1].products)
    else LastEmission(events[..|events| - 1])
  }

  /** The screen shows an error exactly when the collection has ended. */
  lemma {:induction false} ErrorIffEnded(events: seq<ListEvent>)
    ensures Run(events).state.Error? <==> Run(events).collection.Ended?
    decreases |events|
  {
    if events != [] {
      ErrorIffEnded(events[..|events| - 1]);
    }
  }

  /** After the error nothing changes the screen: the collection is over. */
  lemma {:induction false} EndedIsFinal(events: seq<ListEvent>, later: seq<ListEvent>)
    requires Run(events).collection.Ended?
    ensures Run(events + later) == Run(events)
    decreases |later|
  {
    if later != [] {
      var front := later[..|later| - 1];
      assert (events + later)[..|events + later| - 1] == events + front;
      EndedIsFinal(events, front);
    } else {
      assert events + later == events;
    }
  }

  /**
   * A successful screen always shows the latest list emitted; while the
   * collection runs and nothing was emitted since it started, it shows `Loading`.
   */
  lemma {:induction false} ShowsLatestEmission(events: seq<ListEvent>)
    ensures Run(events).state.Success? ==> LastEmission(events) == Some(Run(events).state.products)
    ensures Run(events).state.Success? ==> Run(events).collection.Collecting?
    ensures Run(events).state.Loading? ==> !Run(events).collection.Ended?
    decreases |events|
  {
    if events != [] {
      var front := events[..|events| - 1];
      ShowsLatestEmission(front);
      assert Run(events) == Step(Run(front), events[|events| - 1]);
    }
  }

  /** Every emission while collecting replaces the list shown, however often it happens. */
  lemma EmissionShown(events: seq<ListEvent>, xs: seq<Product>)
    requires Run(events).collection.Collecting?
    ensures Run(events + [Emit(xs)]) == Screen(Collecting, Success(xs))
  {
    assert (events + [Emit(xs)])[..|events|] == events;
  }

  class ProductListViewModel {
    /** `_uiState.value`. */
    var uiState: ListState
    var collection: Collection
    /** The events delivered so far, oldest first. */
    ghost var events: seq<ListEvent>

    ghost predicate Valid()
      reads this
    {
      Screen(collection, uiState) == Run(events)
    }

    constructor ()
      ensures Valid() && events == [] && uiState == Loading && collection == NotStarted
    {
      uiState := Loading;
      collection := NotStarted;
      events := [];
    }

    /** `onStart { _uiState.value = Loading }`. */
    method OnStart()
      requires Valid()
      modifies this
      ensures Valid() && events == old(events) + [Start]
      ensures old(collection).NotStarted? ==> uiState == Loading && collection == Collecting
      ensures !old(collection).NotStarted? ==> uiState == old(uiState) && collection == old(collection)
    {
      if collection.NotStarted? {
        uiState := Loading;
        collection := Collecting;
      }
      events := events + [Start];
      assert events[..|events| - 1] == old(events);
    }

    /** `collect { products -> _uiState.value = Success(products) }`. */
    method OnEmit(products: seq<Product>)
      requires Valid()
      modifies this
      ensures Valid() && events == old(events) + [Emit(products)]
      ensures old(collection).Collecting? ==> uiState == Success(products) && collection == Collecting
      ensures !old(collection).Collecting? ==> uiState == old(uiState) && collection == old(collection)
    {
      if collection.Collecting? {
        uiState := Success(products);
      }
      events := events + [Emit(products)];
      assert events[..|events| - 1] == old(events);
    }

    /** `catch { e -> _uiState.value = Error(e.message ?: "An unknown error occurred") }`. */
    method OnFail(message: Option<string>)
      requires Valid()
      modifies this
      ensures Valid() && events == old(events) + [Failure(message)]
      ensures old(collection).Collecting? ==> uiState == Error(message.GetOr(UnknownErrorMessage)) && collection == Ended
      ensures !old(collection).Collecting? ==> uiState == old(uiState) && collection == old(collection)
    {
      if collection.Collecting? {
        uiState := Error(message.GetOr(UnknownErrorMessage));
        collection := Ended;
      }
      events := events + [Failure(message)];
      assert events[..|events| - 1] == old(events);
    }
  }
}
