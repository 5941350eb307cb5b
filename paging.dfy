/**
 * The paging orchestration of SupportHibernateDao: findPage(Pages, Class,
 * String, Object...) with its helpers countHqlResult, countSQLResult,
 * appendOrderBy and setPageParameterToQuery. The database is an Executor
 * whose answers, rows or an exception, are fixed functions of the query text
 * and parameters, and whose calls are logged in ghost state.
 */
module Paging {
  import opened Values
  import opened Criteria
  import opened CountQuery

  /** The window Query.setFirstResult / setMaxResults put on a fetch. */
  datatype Window = Window(firstResult: int, maxResults: int)

  /** One round trip to the database. */
  datatype Call =
    | Unique(text: string, args: seq<Value>)                       // HQL uniqueResult
    | NativeUnique(text: string, args: seq<Value>)                 // native SQL uniqueResult
    | Fetch(text: string, args: seq<Value>, window: Option<Window>) // HQL list

  /** The rows of a fetch under its window: `maxResults` rows from `firstResult` on. */
  function Windowed(rows: seq<Value>, w: Option<Window>): (r: seq<Value>)
    ensures w.None? ==> r == rows
    ensures w.Some? ==> |r| <= if w.value.maxResults < 0 then 0 else w.value.maxResults
    ensures w.Some? && 0 <= w.value.firstResult ==> |r| == 0 || w.value.firstResult + |r| <= |rows|
    ensures w.Some? && 0 <= w.value.firstResult ==>
              forall k :: 0 <= k < |r| ==> r[k] == rows[w.value.firstResult + k]
    ensures w.Some? && 0 <= w.value.firstResult <= |rows| && 0 <= w.value.maxResults ==>
              |r| == if w.value.firstResult + w.value.maxResults <= |rows| then w.value.maxResults
                     else |rows| - w.value.firstResult
  {
    if w.None? then rows
    else
      var lo := if w.value.firstResult < 0 then 0 else if w.value.firstResult > |rows| then |rows| else w.value.firstResult;
      var hi := if w.value.maxResults < 0 then lo else if lo + w.value.maxResults > |rows| then |rows| else lo + w.value.maxResults;
      rows[lo..hi]
  }

  /** NumberUtil.toLong(count, 0L): a null count is 0. */
  function ToLong(count: Option<int>): (r: int)
    ensures count.None? ==> r == 0
    ensures count.Some? ==> r == count.value
  {
    if count.None? then 0 else count.value
  }

  /** The rows a fetch returns under its window, or the exception the database threw. */
  function Fetched(answer: Result<seq<Value>>, w: Option<Window>): (r: Result<seq<Value>>)
    ensures answer.Err? ==> r == Err(answer.error)
    ensures answer.Ok? ==> r == Ok(Windowed(answer.value, w))
  {
    match answer
    case Err(e) => Err(e)
    case Ok(all) => Ok(Windowed(all, w))
  }

  /**
   * The database: what a unique-result query returns (None for null) and the
   * rows a list query yields before windowing, each a function of the query
   * text and its positional parameters. Any of them may instead throw.
   */
  class Executor {
    const unique: (string, seq<Value>) -> Result<Option<int>>
    const nativeUnique: (string, seq<Value>) -> Result<Option<int>>
    const rows: (string, seq<Value>) -> Result<seq<Value>>
    ghost var calls: seq<Call>

    constructor(unique: (string, seq<Value>) -> Result<Option<int>>, nativeUnique: (string, seq<Value>) -> Result<Option<int>>,
                rows: (string, seq<Value>) -> Result<seq<Value>>)
      ensures this.unique == unique && this.nativeUnique == nativeUnique && this.rows == rows
      ensures calls == []
    {
      this.unique := unique;
      this.nativeUnique := nativeUnique;
      this.rows := rows;
      calls := [];
    }

    method UniqueResult(text: string, args: seq<Value>) returns (r: Result<Option<int>>)
      modifies this
      ensures calls == old(calls) + [Unique(text, args)]
      ensures r == unique(text, args)
    {
      calls := calls + [Unique(text, args)];
      r := unique(text, args);
    }

    method NativeUniqueResult(text: string, args: seq<Value>) returns (r: Result<Option<int>>)
      modifies this
      ensures calls == old(calls) + [NativeUnique(text, args)]
      ensures r == nativeUnique(text, args)
    {
      calls := calls + [NativeUnique(text, args)];
      r := nativeUnique(text, args);
    }

    method List(text: string, args: seq<Value>, window: Option<Window>) returns (r: Result<seq<Value>>)
      modifies this
      ensures calls == old(calls) + [Fetch(text, args, window)]
      ensures r == Fetched(rows(text, args), window)
    {
      calls := calls + [Fetch(text, args, window)];
      r := Fetched(rows(text, args), window);
    }
  }

  /** A Hibernate Query: its text and parameters, and the window set on it. */
  class Query {
    const text: string
    const args: seq<Value>
    var window: Option<Window>

    constructor(text: string, args: seq<Value>)
      ensures this.text == text && this.args == args && window == None
    {
      this.text := text;
      this.args := args;
      window := None;
    }

    method List(exec: Executor) returns (r: Result<seq<Value>>)
      modifies exec
      ensures exec.calls == old(exec.calls) + [Fetch(text, args, window)]
      ensures r == Fetched(exec.rows(text, args), window)
    {
      r := exec.List(text, args, window);
    }
  }

  /** createQuery: the query text must have text (Assert.hasText). */
  method CreateQuery(text: string, args: seq<Value>) returns (r: Result<Query>)
    ensures r.Err? <==> IsBlankText(text)
    ensures r.Err? ==> r.error == BlankQuery
    ensures r.Ok? ==> fresh(r.value) && r.value.text == text && r.value.args == args && r.value.window == None
  {
    if IsBlankText(text) {
      return Err(BlankQuery);
    }
    var q := new Query(text, args);
    return Ok(q);
  }

  /** A Java int. */
  type Int32 = x: int | -0x8000_0000 <= x < 0x8000_0000

  /**
   * The value a Java int expression yields: the exact value wrapped into 32-bit
   * two's complement. Wrapping after each operation gives the same int as
   * wrapping the exact result once.
   */
  function Wrap32(x: int): (r: Int32)
    ensures (r - x) % 0x1_0000_0000 == 0
    ensures -0x8000_0000 <= x < 0x8000_0000 ==> r == x
  {
    (x + 0x8000_0000) % 0x1_0000_0000 - 0x8000_0000
  }

  /** Two values that agree modulo 2^32 wrap to the same int. */
  lemma WrapCongruent(x: int, y: int)
    requires (x - y) % 0x1_0000_0000 == 0
    ensures Wrap32(x) == Wrap32(y)
  {
    var d := (x - y) / 0x1_0000_0000;
    assert x == y + d * 0x1_0000_0000;
    assert (x + 0x8000_0000) % 0x1_0000_0000 == (y + 0x8000_0000) % 0x1_0000_0000;
  }

  /** What the caller puts in a Pages object before the call. */
  datatype PageRequest = PageRequest(
    pageNo: Int32,
    pageSize: Int32,
    autoCount: bool,
    sort: Option<string>,        // Sort.toString(), or None for a null sort
    conditions: seq<Condition>)

  /** Pages: the request, and the total count and result the call fills in. */
  class Pages {
    const request: PageRequest
    var totalCount: int
    var result: seq<Value>

    constructor(request: PageRequest)
      ensures this.request == request && totalCount == -1 && result == []
    {
      this.request := request;
      totalCount := -1;
      result := [];
    }

    /** getFirst(): the 1-based index of the page's first row, in int arithmetic. */
    function First(): Int32 {
      Wrap32((request.pageNo - 1) * request.pageSize + 1)
    }
  }

  /**
   * The window setPageParameterToQuery puts on a fetch, or None for an unbounded
   * page. The offset is (pageNo-1)*pageSize as a Java int: exact while it fits,
   * wrapped modulo 2^32 beyond.
   */
  function PageWindow(request: PageRequest): (r: Option<Window>)
    ensures r.Some? <==> request.pageSize > 0
    ensures r.Some? ==> r.value.maxResults == request.pageSize
    ensures r.Some? ==> -0x8000_0000 <= r.value.firstResult < 0x8000_0000
    ensures r.Some? ==> (r.value.firstResult - (request.pageNo - 1) * request.pageSize) % 0x1_0000_0000 == 0
    ensures r.Some? && -0x8000_0000 <= (request.pageNo - 1) * request.pageSize < 0x8000_0000 ==>
              r.value.firstResult == (request.pageNo - 1) * request.pageSize
  {
    if request.pageSize > 0 then Some(Window(Wrap32((request.pageNo - 1) * request.pageSize), request.pageSize)) else None
  }

  /** setPageParameterToQuery: a positive page size windows the query; otherwise it is left alone. */
  method SetPageParameterToQuery(q: Query, page: Pages)
    modifies q
    ensures page.request.pageSize > 0 ==> q.window == Some(Window(Wrap32(page.First() - 1), page.request.pageSize))
    ensures page.request.pageSize <= 0 ==> q.window == old(q.window)
    ensures old(q.window) == None ==> q.window == PageWindow(page.request)
  {
    if page.request.pageSize > 0 {
      var offset := (page.request.pageNo - 1) * page.request.pageSize;
      WrapCongruent(page.First() - 1, offset);
      q.window := Some(Window(Wrap32(page.First() - 1), page.request.pageSize));
    }
  }

  /** A count query's answer as a long: a null count is 0, and an exception passes through. */
  function CountOf(answer: Result<Option<int>>): (r: Result<int>)
    ensures answer.Err? ==> r == Err(answer.error)
    ensures answer.Ok? ==> r == Ok(ToLong(answer.value))
  {
    match answer
    case Err(e) => Err(e)
    case Ok(count) => Ok(ToLong(count))
  }

  /** countHqlResult: run the derived count query; a null count is 0. */
  method CountHqlResult(hql: string, values: seq<Value>, exec: Executor) returns (r: Result<int>)
    modifies exec
    ensures PrepareCountHql(hql).Err? ==> r == Err(PrepareCountHql(hql).error) && exec.calls == old(exec.calls)
    ensures PrepareCountHql(hql).Ok? ==>
              && exec.calls == old(exec.calls) + [Unique(PrepareCountHql(hql).value, values)]
              && r == CountOf(exec.unique(PrepareCountHql(hql).value, values))
  {
    var countHql := PrepareCountHql(hql);
    if countHql.Err? {
      return Err(countHql.error);
    }
    var count := exec.UniqueResult(countHql.value, values);
    if count.Err? {
      return Err(count.error);
    }
    return Ok(ToLong(count.value));
  }

  /** countSQLResult: 0 without a query when there is no "from", else the wrapped count query's result. */
  method CountSqlResult(sql: string, values: seq<Value>, exec: Executor) returns (r: Result<int>)
    modifies exec
    ensures CountSqlText(sql).None? ==> r == Ok(0) && exec.calls == old(exec.calls)
    ensures CountSqlText(sql).Some? ==>
              && exec.calls == old(exec.calls) + [NativeUnique(CountSqlText(sql).value, values)]
              && r == CountOf(exec.nativeUnique(CountSqlText(sql).value, values))
  {
    var countSql := CountSqlText(sql);
    if countSql.None? {
      return Ok(0);
    }
    var count := exec.NativeUniqueResult(countSql.value, values);
    if count.Err? {
      return Err(count.error);
    }
    return Ok(ToLong(count.value));
  }

  /**
   * PageSQLHandler.dualDynamicCondition: splices the page's conditions into the
   * query and returns the new text and the extended parameter list.
   */
  type Splicer = (string, seq<Condition>, seq<Value>) -> (string, seq<Value>)

  /** What findPage does: its outcome, its database calls, and the totalCount / result it sets (None: left as is). */
  datatype Effect = Effect(outcome: Outcome, calls: seq<Call>, totalCount: Option<int>, result: Option<seq<Value>>)

  /** The effect of findPage on a request, given the splicer and the database's answers. */
  function PageEffect(request: PageRequest, hql: string, values: seq<Value>, splice: Splicer,
                      unique: (string, seq<Value>) -> Result<Option<int>>,
                      rows: (string, seq<Value>) -> Result<seq<Value>>): Effect
  {
    var (text, params) := splice(hql, request.conditions, values);
    var count := PrepareCountHql(text);
    if request.autoCount && count.Err? then Effect(Fail(count.error), [], None, None)
    else if request.autoCount && unique(count.value, params).Err? then
      Effect(Fail(unique(count.value, params).error), [Unique(count.value, params)], None, None)
    else
      var countCalls := if request.autoCount then [Unique(count.value, params)] else [];
      var total := if request.autoCount then Some(ToLong(unique(count.value, params).value)) else None;
      if total == Some(0) then Effect(Pass, countCalls, total, None)
      else
        match AppendOrderBy(text, request.sort)
        case Err(e) => Effect(Fail(e), countCalls, total, None)
        case Ok(suffix) =>
          var fetchText := text + suffix;
          if IsBlankText(fetchText) then Effect(Fail(BlankQuery), countCalls, total, None)
          else
            var w := PageWindow(request);
            var calls := countCalls + [Fetch(fetchText, params, w)];
            match rows(fetchText, params)
            case Err(e) => Effect(Fail(e), calls, total, None)
            case Ok(all) => Effect(Pass, calls, total, Some(Windowed(all, w)))
  }

  /** findPage(page, clazz, hql, values...). */
  method FindPage(page: Pages, hql: string, values: seq<Value>, splice: Splicer, exec: Executor) returns (r: Outcome)
    requires page != exec as object
    modifies page, exec
    ensures var e := PageEffect(page.request, hql, values, splice, exec.unique, exec.rows);
            && r == e.outcome
            && exec.calls == old(exec.calls) + e.calls
            && page.totalCount == (if e.totalCount.Some? then e.totalCount.value else old(page.totalCount))
            && page.result == (if e.result.Some? then e.result.value else old(page.result))
  {
    var (queryHql, paramValue) := splice(hql, page.request.conditions, values);
    if page.request.autoCount {
      var totalCount := CountHqlResult(queryHql, paramValue, exec);
      if totalCount.Err? {
        return Fail(totalCount.error);
      }
      page.totalCount := totalCount.value;
      if totalCount.value == 0 {
        return Pass;
      }
    }
    var orderBy := AppendOrderBy(queryHql, page.request.sort);
    if orderBy.Err? {
      return Fail(orderBy.error);
    }
    queryHql := queryHql + orderBy.value;
    var q := CreateQuery(queryHql, paramValue);
    if q.Err? {
      return Fail(q.error);
    }
    SetPageParameterToQuery(q.value, page);
    var result := q.value.List(exec);
    if result.Err? {
      return Fail(result.error);
    }
    page.result := result.value;
    return Pass;
  }

  // ---------------------------------------------------------------------------
  // Properties of findPage

  /**
   * With autoCount, a zero total is recorded and the page returned after the
   * count query alone: nothing is fetched and the result is left as it was.
   */
  lemma ZeroCountShortCircuits(request: PageRequest, hql: string, values: seq<Value>, splice: Splicer,
                               unique: (string, seq<Value>) -> Result<Option<int>>, rows: (string, seq<Value>) -> Result<seq<Value>>)
    requires request.autoCount
    requires PrepareCountHql(splice(hql, request.conditions, values).0).Ok?
    requires CountOf(unique(PrepareCountHql(splice(hql, request.conditions, values).0).value,
                            splice(hql, request.conditions, values).1)) == Ok(0)
    ensures PageEffect(request, hql, values, splice, unique, rows)
            == Effect(Pass, [Unique(PrepareCountHql(splice(hql, request.conditions, values).0).value,
                                    splice(hql, request.conditions, values).1)], Some(0), None)
  {
  }

  /**
   * The calls findPage makes: at most a count and then a fetch. With autoCount
   * the count comes first and is derived from the spliced query before any sort
   * is appended; totalCount is set exactly when that count query answered, to
   * its answer. Without autoCount no count is run and totalCount is left alone.
   * The result is set exactly when a fetch was made and answered.
   */
  lemma CountBeforeFetch(request: PageRequest, hql: string, values: seq<Value>, splice: Splicer,
                         unique: (string, seq<Value>) -> Result<Option<int>>, rows: (string, seq<Value>) -> Result<seq<Value>>)
    ensures var e := PageEffect(request, hql, values, splice, unique, rows);
            var (text, params) := splice(hql, request.conditions, values);
            && |e.calls| <= 2
            && (forall k :: 0 <= k < |e.calls| && e.calls[k].Fetch? ==> k == |e.calls| - 1)
            && (request.autoCount && |e.calls| > 0 ==> e.calls[0] == Unique(PrepareCountHql(text).value, params))
            && (!request.autoCount ==> e.totalCount.None? && forall c :: c in e.calls ==> c.Fetch?)
            && (request.autoCount ==>
                  (e.totalCount.Some? <==> PrepareCountHql(text).Ok? && unique(PrepareCountHql(text).value, params).Ok?))
            && (request.autoCount && e.totalCount.Some? ==>
                  Ok(e.totalCount.value) == CountOf(unique(PrepareCountHql(text).value, params)))
            && (e.result.Some? <==> e.outcome.Pass? && |e.calls| > 0 && e.calls[|e.calls| - 1].Fetch?)
  {
  }

  /**
   * Every fetch carries the page's window: rows from (pageNo-1)*pageSize, at most
   * pageSize of them, when pageSize > 0; the whole answer otherwise.
   */
  lemma FetchWindowOfPage(request: PageRequest, hql: string, values: seq<Value>, splice: Splicer,
                          unique: (string, seq<Value>) -> Result<Option<int>>, rows: (string, seq<Value>) -> Result<seq<Value>>)
    ensures var e := PageEffect(request, hql, values, splice, unique, rows);
            && (forall c :: c in e.calls && c.Fetch? ==> c.window == PageWindow(request))
            && (e.result.Some? ==> Ok(e.result.value) == Fetched(rows(e.calls[|e.calls| - 1].text, e.calls[|e.calls| - 1].args), PageWindow(request)))
            && (e.result.Some? && request.pageSize > 0 ==> |e.result.value| <= request.pageSize)
            && (e.result.Some? && request.pageSize <= 0 ==> Ok(e.result.value) == rows(e.calls[|e.calls| - 1].text, e.calls[|e.calls| - 1].args))
  {
  }

  /** The offset law: page 3 of 20 rows fetches 20 rows from offset 40. */
  lemma ThirdPageOfTwenty(request: PageRequest)
    requires request.pageNo == 3 && request.pageSize == 20
    ensures PageWindow(request) == Some(Window(40, 20))
  {
  }

  /** Past 2^31-1 the int offset wraps: page 2,200,000 of 1000 rows asks for a negative first result. */
  lemma LatePageOffsetWraps(request: PageRequest)
    requires request.pageNo == 2_200_000 && request.pageSize == 1000
    ensures PageWindow(request) == Some(Window(-2_094_968_296, 1000))
  {
  }

  /**
   * A sort on a query that already says "order by" fails only after the count
   * has run and totalCount has been set.
   */
  lemma DuplicateOrderByAfterCount(request: PageRequest, hql: string, values: seq<Value>, splice: Splicer,
                                   unique: (string, seq<Value>) -> Result<Option<int>>, rows: (string, seq<Value>) -> Result<seq<Value>>)
    requires var (text, params) := splice(hql, request.conditions, values);
             && request.autoCount && request.sort.Some? && Contains(text, "order by")
             && PrepareCountHql(text).Ok? && unique(PrepareCountHql(text).value, params).Ok?
             && ToLong(unique(PrepareCountHql(text).value, params).value) != 0
    ensures var e := PageEffect(request, hql, values, splice, unique, rows);
            var (text, params) := splice(hql, request.conditions, values);
            e == Effect(Fail(DuplicateOrderBy), [Unique(PrepareCountHql(text).value, params)],
                        Some(ToLong(unique(PrepareCountHql(text).value, params).value)), None)
  {
  }

  /**
   * A count query that throws ends findPage with its exception: totalCount is
   * not set and nothing is fetched.
   */
  lemma CountFailureSetsNothing(request: PageRequest, hql: string, values: seq<Value>, splice: Splicer,
                                unique: (string, seq<Value>) -> Result<Option<int>>, rows: (string, seq<Value>) -> Result<seq<Value>>)
    requires var (text, params) := splice(hql, request.conditions, values);
             request.autoCount && PrepareCountHql(text).Ok? && unique(PrepareCountHql(text).value, params).Err?
    ensures var e := PageEffect(request, hql, values, splice, unique, rows);
            var (text, params) := splice(hql, request.conditions, values);
            e == Effect(Fail(unique(PrepareCountHql(text).value, params).error),
                        [Unique(PrepareCountHql(text).value, params)], None, None)
  {
  }

  /** A query the count derivation accepts is never blank, nor is it with a sort appended. */
  lemma CountableIsNotBlank(text: string, suffix: string)
    requires PrepareCountHql(text).Ok?
    ensures !IsBlankText(text + suffix)
  {
    PrepareCountHqlFails(text);
    var i :| 0 <= i <= |text| && MatchesAt(text, i, "from ", true);
    assert SameChar(text[i + 0], "from "[0], true);
    assert (text + suffix)[i] == text[i];
  }

  /**
   * A fetch that throws after a non-zero count ends findPage with its
   * exception, with totalCount already set to the count and no result set.
   */
  lemma FetchFailureKeepsCount(request: PageRequest, hql: string, values: seq<Value>, splice: Splicer,
                               unique: (string, seq<Value>) -> Result<Option<int>>, rows: (string, seq<Value>) -> Result<seq<Value>>)
    requires var (text, params) := splice(hql, request.conditions, values);
             && request.autoCount && PrepareCountHql(text).Ok?
             && unique(PrepareCountHql(text).value, params).Ok?
             && ToLong(unique(PrepareCountHql(text).value, params).value) != 0
             && AppendOrderBy(text, request.sort).Ok?
             && rows(text + AppendOrderBy(text, request.sort).value, params).Err?
    ensures var e := PageEffect(request, hql, values, splice, unique, rows);
            var (text, params) := splice(hql, request.conditions, values);
            var fetchText := text + AppendOrderBy(text, request.sort).value;
            e == Effect(Fail(rows(fetchText, params).error),
                        [Unique(PrepareCountHql(text).value, params), Fetch(fetchText, params, PageWindow(request))],
                        Some(ToLong(unique(PrepareCountHql(text).value, params).value)), None)
  {
    var (text, params) := splice(hql, request.conditions, values);
    CountableIsNotBlank(text, AppendOrderBy(text, request.sort).value);
  }

  /**
   * A failed findPage never sets the result, and it has fetched nothing unless
   * its last call was a fetch that threw the very exception it fails with.
   */
  lemma FailureSetsNoResult(request: PageRequest, hql: string, values: seq<Value>, splice: Splicer,
                            unique: (string, seq<Value>) -> Result<Option<int>>, rows: (string, seq<Value>) -> Result<seq<Value>>)
    ensures var e := PageEffect(request, hql, values, splice, unique, rows);
            e.outcome.Fail? ==>
              && e.result.None?
              && forall k :: 0 <= k < |e.calls| && e.calls[k].Fetch? ==>
                   k == |e.calls| - 1 && rows(e.calls[k].text, e.calls[k].args) == Err(e.outcome.error)
  {
  }
}
