/** The `Filter` component's state and its search logic: the keystroke
    handler `handleSearch`, the hit resolution `search`, and the choice of
    rows `renderTable` shows. Each handler call is one atomic transition. */
module Filter {
  import opened Wrappers
  import opened Strings
  import opened Clients
  import opened NameSort
  import opened Lunr

  /** Which input the keystroke came from. */
  datatype FilterType = Name | Postcode

  /** The part of a change/blur event the handler reads: `e.target.value`,
      `None` standing for `null`/`undefined`. */
  datatype Event = Event(value: Option<string>)

  /** `this.state`: `lunr.index` (`None` until the index is built),
      `clients`, and `filteredClients` (`None` for `null`; its rows are
      `None` where a hit resolved to `undefined`). */
  datatype State = State(
    index: Option<SearchIndex>,
    clients: seq<Client>,
    filteredClients: Option<seq<Option<Client>>>)

  /** The constructor's state. */
  function Initial(): State {
    State(None, [], Some([]))
  }

  /** JavaScript truthiness of the typed value: neither null nor "". */
  predicate Truthy(value: Option<string>) {
    value.Some? && value.value != ""
  }

  function FieldName(filter: FilterType): string {
    match filter
    case Name => "name"
    case Postcode => "postcode"
  }

  /** The lunr query for `filter`: the typed text as an infix wildcard
      prefixed with that field's name. `trim` leaves it intact, since it starts
      with a field name and ends with `*`. */
  function QueryFor(filter: FilterType, value: string): (q: string)
    ensures Trim(q) == q
  {
    FieldName(filter) + ":*" + value + "*"
  }

  /** The query string determines the field and the typed text: different
      inputs never share a query. */
  lemma QueryForIsInjective(f1: FilterType, v1: string, f2: FilterType, v2: string)
    ensures QueryFor(f1, v1) == QueryFor(f2, v2) <==> f1 == f2 && v1 == v2
  {
    var q1, q2 := QueryFor(f1, v1), QueryFor(f2, v2);
    if q1 == q2 {
      assert q1[0] == FieldName(f1)[0] && q2[0] == FieldName(f2)[0];
      var n := |FieldName(f1)| + 2;
      assert v1 == q1[n..|q1| - 1];
      assert v2 == q2[n..|q2| - 1];
    }
  }

  /** `search(clients, index, query)`: one row per hit, in hit order, each
      the first client with the hit's ref as account number, or `None` if
      there is none; lunr's parse error propagates. */
  function Search(clients: seq<Client>, index: SearchIndex, query: string): (r: Result<seq<Option<Client>>, QueryError>)
    ensures var hits := index.search(Trim(query));
      && (r.Failure? <==> hits.Failure?)
      && (r.Failure? ==> r.error == hits.error)
      && (r.Success? ==>
            && |r.value| == |hits.value|
            && forall i :: 0 <= i < |r.value| ==> IsFirstWithAccount(clients, hits.value[i], r.value[i]))
  {
    match index.search(Trim(query))
    case Failure(e) => Failure(e)
    case Success(refs) =>
      Success(seq(|refs|, i requires 0 <= i < |refs| => FindByAccount(clients, refs[i])))
  }

  /** `handleSearch(e, filter)`. */
  function HandleSearch(s: State, e: Option<Event>, filter: FilterType): (r: Result<State, QueryError>)
    // No event: nothing happens.
    ensures e.None? ==> r == Success(s)
    // Whatever happens, only `filteredClients` may change.
    ensures r.Success? ==> r.value.index == s.index && r.value.clients == s.clients
    // No index yet, or nothing typed: the filter is cleared.
    ensures e.Some? && (s.index.None? || !Truthy(e.value.value)) ==>
      r.Success? && r.value.filteredClients.None?
    // Otherwise the field-prefixed query runs; the hits, resolved to rows,
    // become the filtered list sorted by name, or lunr's error propagates.
    ensures e.Some? && s.index.Some? && Truthy(e.value.value) ==>
      var hits := s.index.value.search(QueryFor(filter, e.value.value.value));
      && (r.Failure? <==> hits.Failure?)
      && (r.Failure? ==> r.error == hits.error)
      && (r.Success? ==>
            && r.value.filteredClients.Some?
            && var rows := r.value.filteredClients.value;
            && |rows| == |hits.value|
            && SortedByName(rows)
            && multiset(rows) == multiset(Search(s.clients, s.index.value, QueryFor(filter, e.value.value.value)).value))
  {
    if e.None? then Success(s)
    else
      var value := e.value.value;
      if s.index.None? || !Truthy(value) then Success(s.(filteredClients := None))
      else
        match Search(s.clients, s.index.value, QueryFor(filter, value.value))
        case Failure(err) => Failure(err)
        case Success(rows) => Success(s.(filteredClients := Some(SortByName(rows))))
  }

  /** All clients, as rows. */
  function AllRows(clients: seq<Client>): (rows: seq<Option<Client>>)
    ensures |rows| == |clients|
    ensures forall i :: 0 <= i < |rows| ==> rows[i] == Some(clients[i])
  {
    seq(|clients|, i requires 0 <= i < |clients| => Some(clients[i]))
  }

  /** The rows `renderTable` shows: the filtered list when it is non-null
      and non-empty, every client otherwise. */
  function DisplayedRows(s: State): (rows: seq<Option<Client>>)
    // The table is empty only when there is neither a filtered row nor a client.
    ensures |rows| == 0 <==>
      |s.clients| == 0 && (s.filteredClients.None? || |s.filteredClients.value| == 0)
    // Every row shown is a filtered row or a client of the store, and an
    // undefined row can only come from the filtered list.
    ensures forall row :: row in rows ==>
      || (s.filteredClients.Some? && row in s.filteredClients.value)
      || (row.Some? && row.value in s.clients)
    ensures None in rows ==> s.filteredClients.Some? && None in s.filteredClients.value
    // A non-empty filtered list is shown as it is.
    ensures s.filteredClients.Some? && |s.filteredClients.value| > 0 ==> rows == s.filteredClients.value
  {
    if s.filteredClients.Some? && |s.filteredClients.value| > 0 then s.filteredClients.value
    else AllRows(s.clients)
  }

  /** The empty filtered list is displayed exactly like a cleared filter. */
  lemma EmptyFilterLooksUnfiltered(s: State)
    ensures DisplayedRows(s.(filteredClients := Some([]))) == DisplayedRows(s.(filteredClients := None))
    ensures DisplayedRows(s.(filteredClients := None)) == AllRows(s.clients)
  {
  }

  /** Before the index is built every keystroke clears the filter, and
      nothing is shown either way since there are no clients yet. */
  lemma KeystrokeBeforeMountResets(e: Event, filter: FilterType)
    ensures Initial().index.None? && Initial().filteredClients == Some([])
    ensures HandleSearch(Initial(), Some(e), filter) == Success(State(None, [], None))
    ensures DisplayedRows(Initial()) == [] && DisplayedRows(State(None, [], None)) == []
  {
  }

  /** A query lunr answers with no hits leaves the filtered list empty, so
      every client is displayed, exactly as after clearing the field. */
  lemma NoHitsShowsEveryClient(s: State, value: string, filter: FilterType)
    requires s.index.Some? && value != ""
    requires s.index.value.search(QueryFor(filter, value)) == Success([])
    ensures var r := HandleSearch(s, Some(Event(Some(value))), filter);
      && r.Success? && r.value.filteredClients == Some([])
      && DisplayedRows(r.value) == AllRows(s.clients)
      && DisplayedRows(r.value) == DisplayedRows(HandleSearch(s, Some(Event(Some(""))), filter).value)
  {
  }

  /** When lunr returns hits, the display is the resolved hits sorted by
      name, one row per hit. */
  lemma HitsAreDisplayed(s: State, value: string, filter: FilterType)
    requires s.index.Some? && value != ""
    requires var hits := s.index.value.search(QueryFor(filter, value));
      hits.Success? && |hits.value| > 0
    ensures var r := HandleSearch(s, Some(Event(Some(value))), filter);
      var resolved := Search(s.clients, s.index.value, QueryFor(filter, value));
      && r.Success? && resolved.Success?
      && DisplayedRows(r.value) == SortByName(resolved.value)
      && |DisplayedRows(r.value)| == |s.index.value.search(QueryFor(filter, value)).value|
  {
  }

  /** A hit whose ref no client carries is kept as an `undefined` row, both
      in the filtered list and on display; it is not dropped. */
  lemma StaleHitIsKept(s: State, value: string, filter: FilterType, i: nat)
    requires s.index.Some? && value != ""
    requires var hits := s.index.value.search(QueryFor(filter, value));
      hits.Success? && i < |hits.value|
      && forall c :: c in s.clients ==> c.accountNum != hits.value[i]
    ensures var r := HandleSearch(s, Some(Event(Some(value))), filter);
      && r.Success? && r.value.filteredClients.Some?
      && None in r.value.filteredClients.value
      && None in DisplayedRows(r.value)
  {
    var query := QueryFor(filter, value);
    var resolved := Search(s.clients, s.index.value, query).value;
    assert resolved[i] == None by {
      assert IsFirstWithAccount(s.clients, s.index.value.search(Trim(query)).value[i], resolved[i]);
    }
    assert None in multiset(resolved);
  }

  /** Every defined row the search step produces is a client of the store
      whose account number is one of the hits. */
  lemma RowsComeFromStore(s: State, value: string, filter: FilterType)
    requires s.index.Some? && value != ""
    requires s.index.value.search(QueryFor(filter, value)).Success?
    ensures var r := HandleSearch(s, Some(Event(Some(value))), filter);
      var hits := s.index.value.search(QueryFor(filter, value)).value;
      && r.Success? && r.value.filteredClients.Some?
      && forall row :: row in r.value.filteredClients.value && row.Some? ==>
           row.value in s.clients && row.value.accountNum in hits
  {
    var query := QueryFor(filter, value);
    var hits := s.index.value.search(query).value;
    var resolved := Search(s.clients, s.index.value, query).value;
    var rows := HandleSearch(s, Some(Event(Some(value))), filter).value.filteredClients.value;
    forall row | row in rows && row.Some?
      ensures row.value in s.clients && row.value.accountNum in hits
    {
      assert row in multiset(resolved);
      var i :| 0 <= i < |resolved| && resolved[i] == row;
      assert IsFirstWithAccount(s.clients, hits[i], resolved[i]);
    }
  }

  /** When every hit's ref belongs to some client, as it does for an index
      built from the same clients, no row is `undefined`. */
  lemma ConsistentIndexResolvesEveryHit(s: State, value: string, filter: FilterType)
    requires s.index.Some? && value != ""
    requires var hits := s.index.value.search(QueryFor(filter, value));
      hits.Success?
      && forall i :: 0 <= i < |hits.value| ==> exists c :: c in s.clients && c.accountNum == hits.value[i]
    ensures var r := HandleSearch(s, Some(Event(Some(value))), filter);
      && r.Success? && r.value.filteredClients.Some?
      && None !in r.value.filteredClients.value
  {
    var query := QueryFor(filter, value);
    var hits := s.index.value.search(query).value;
    var resolved := Search(s.clients, s.index.value, query).value;
    forall i | 0 <= i < |resolved|
      ensures resolved[i].Some?
    {
      assert IsFirstWithAccount(s.clients, hits[i], resolved[i]);
      var c :| c in s.clients && c.accountNum == hits[i];
    }
    assert None !in multiset(resolved);
  }

  /** Rows with equal names stay in lunr's hit order after the sort. */
  lemma EqualNamesKeepHitOrder(s: State, value: string, filter: FilterType, k: SortKey)
    requires s.index.Some? && value != ""
    requires s.index.value.search(QueryFor(filter, value)).Success?
    ensures var r := HandleSearch(s, Some(Event(Some(value))), filter);
      var resolved := Search(s.clients, s.index.value, QueryFor(filter, value));
      && r.Success? && r.value.filteredClients.Some? && resolved.Success?
      && WithKey(r.value.filteredClients.value, k) == WithKey(resolved.value, k)
  {
    SortByNameIsStable(Search(s.clients, s.index.value, QueryFor(filter, value)).value, k);
  }
}
