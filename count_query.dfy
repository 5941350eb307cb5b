/**
 * The textual query rewriting of SupportHibernateDao: deriving a count query
 * from an HQL query (prepareCountHql), wrapping an SQL query into a count
 * query (the text part of countSQLResult), and the order-by suffix of
 * appendOrderBy.
 */
module CountQuery {
  import opened Values

  const CountPrefix: string := "select count(*) "
  const CountSqlPrefix: string := "select count(1) as count from ("
  const CountSqlSuffix: string := ") orgi"

  /** `pattern` occurs somewhere in `s`, letter case ignored. */
  predicate Occurs(s: string, pattern: string) {
    exists i :: 0 <= i <= |s| && MatchesAt(s, i, pattern, true)
  }

  /** `i` is the first index where `pattern` occurs in `s`, letter case ignored. */
  predicate FirstMatch(s: string, i: int, pattern: string) {
    MatchesAt(s, i, pattern, true) && forall j :: 0 <= j < i ==> !MatchesAt(s, j, pattern, true)
  }

  /** The case-insensitive search finds exactly the first occurrence. */
  lemma FirstMatchIsIndexOf(s: string, i: int, pattern: string)
    requires FirstMatch(s, i, pattern)
    ensures IndexOf(s, pattern, true) == i
  {
  }

  /** The case-insensitive search finds nothing exactly when the pattern does not occur. */
  lemma NoMatchIsIndexOf(s: string, pattern: string)
    ensures IndexOf(s, pattern, true) < 0 <==> !Occurs(s, pattern)
  {
    if !Occurs(s, pattern) {
      assert !MatchesAt(s, IndexOf(s, pattern, true), pattern, true);
    }
  }

  /**
   * prepareCountHql: "select count(*) " followed by the query from its first
   * "from " up to its first " order by ", each found ignoring case; a query
   * with no "from " or with a " group by " is refused.
   */
  function PrepareCountHql(hql: string): (r: Result<string>)
    ensures r.Err? ==> r == Err(MissingFrom) || r == Err(GroupByUnsupported)
    ensures r.Ok? ==> CountPrefix <= r.value
  {
    var start := IndexOf(hql, "from ", true);
    if start < 0 then Err(MissingFrom)
    else if IndexOf(hql, " group by ", true) > 0 then Err(GroupByUnsupported)
    else
      var end := IndexOf(hql, " order by ", true);
      if end > 0 then Ok(CountPrefix + Substring(hql, start, end))
      else Ok(CountPrefix + hql[start..])
  }

  /**
   * The count derivation fails for exactly two reasons: no "from " anywhere,
   * or a " group by " whose first occurrence is past index 0.
   */
  lemma PrepareCountHqlFails(hql: string)
    ensures PrepareCountHql(hql) == Err(MissingFrom) <==> !Occurs(hql, "from ")
    ensures PrepareCountHql(hql) == Err(GroupByUnsupported) <==>
              Occurs(hql, "from ") && Occurs(hql, " group by ") && !MatchesAt(hql, 0, " group by ", true)
  {
    NoMatchIsIndexOf(hql, "from ");
    NoMatchIsIndexOf(hql, " group by ");
  }

  /**
   * The count body is a prefix of the query from its first "from ", and all of
   * it when the query has no " order by ".
   */
  lemma {:induction false} CountBodyFromFirstFrom(hql: string, start: int)
    requires PrepareCountHql(hql).Ok? && FirstMatch(hql, start, "from ")
    ensures CountBody(hql) <= hql[start..]
    ensures !Occurs(hql, " order by ") ==> CountBody(hql) == hql[start..]
  {
    FirstMatchIsIndexOf(hql, start, "from ");
    NoMatchIsIndexOf(hql, " order by ");
  }

  /** The body of a derived count query, after "select count(*) ". */
  function CountBody(hql: string): (r: string)
    requires PrepareCountHql(hql).Ok?
  {
    PrepareCountHql(hql).value[|CountPrefix|..]
  }

  /**
   * When the first " order by " lies after the first "from ", the count body is
   * exactly the text between them.
   */
  lemma {:induction false} CountBodyStopsAtOrderBy(hql: string, start: int, end: int)
    requires PrepareCountHql(hql).Ok?
    requires FirstMatch(hql, start, "from ") && FirstMatch(hql, end, " order by ") && start <= end
    ensures CountBody(hql) == hql[start..end]
  {
    FirstMatchIsIndexOf(hql, start, "from ");
    FirstMatchIsIndexOf(hql, end, " order by ");
    // "from " and " order by " cannot both start at index 0
    assert !SameChar(hql[0], "from "[0], true) || !SameChar(hql[0], " order by "[0], true);
  }

  /**
   * When the first " order by " is not past index 0, the body runs from the
   * first "from " to the end; when it lies past 0 but before that "from ", the
   * lenient substring makes the body empty.
   */
  lemma {:induction false} CountBodyWithoutCut(hql: string, start: int)
    requires PrepareCountHql(hql).Ok? && FirstMatch(hql, start, "from ")
    ensures IndexOf(hql, " order by ", true) <= 0 ==> CountBody(hql) == hql[start..]
    ensures 0 < IndexOf(hql, " order by ", true) < start ==> CountBody(hql) == ""
  {
    FirstMatchIsIndexOf(hql, start, "from ");
  }

  /**
   * Unless the query itself begins with " order by ", the derived count query
   * carries no " order by " at all.
   */
  lemma {:induction false} CountBodyHasNoOrderBy(hql: string)
    requires PrepareCountHql(hql).Ok?
    requires !MatchesAt(hql, 0, " order by ", true)
    ensures !Occurs(CountBody(hql), " order by ")
  {
    var start := IndexOf(hql, "from ", true);
    var end := IndexOf(hql, " order by ", true);
    var body := CountBody(hql);
    CountBodyFromFirstFrom(hql, start);
    assert end != 0;
    if end < 0 {
      NoMatchIsIndexOf(hql, " order by ");
      forall i | 0 <= i <= |body| ensures !MatchesAt(body, i, " order by ", true) {
        MatchInPrefix(hql, start, body, i, " order by ");
      }
    } else {
      assert PrepareCountHql(hql).value == CountPrefix + Substring(hql, start, end);
      assert body == Substring(hql, start, end);
      assert |body| <= if end > start then end - start else 0;
      forall i | 0 <= i <= |body| ensures !MatchesAt(body, i, " order by ", true) {
        MatchInPrefix(hql, start, body, i, " order by ");
      }
    }
  }

  /** An occurrence in a prefix of `s[lo..]` is an occurrence in `s`, `lo` further on. */
  lemma MatchInPrefix(s: string, lo: nat, body: string, i: int, pattern: string)
    requires lo <= |s| && body <= s[lo..]
    ensures MatchesAt(body, i, pattern, true) ==> MatchesAt(s, lo + i, pattern, true)
  {
    if MatchesAt(body, i, pattern, true) {
      forall j | 0 <= j < |pattern| ensures SameChar(s[lo + i + j], pattern[j], true) {
        assert body[i + j] == s[lo + i + j];
      }
    }
  }

  /** A character other than a letter and its upper case does not match that letter ignoring case. */
  lemma OtherThanLetter(c: char, d: char)
    requires 'a' <= d <= 'z' && c != d && c as int != d as int - 32
    ensures !SameChar(c, d, true)
  {
  }

  /**
   * No occurrence of `pattern` starts before `i` when the text up to `i + k`
   * lacks the letter `pattern[k]` in either case.
   */
  lemma NoMatchBefore(s: string, i: nat, pattern: string, k: nat)
    requires k < |pattern| && i + k <= |s| && 'a' <= pattern[k] <= 'z'
    requires pattern[k] !in s[..i + k] && ((pattern[k] as int - 32) as char) !in s[..i + k]
    ensures forall j :: 0 <= j < i ==> !MatchesAt(s, j, pattern, true)
  {
    forall j | 0 <= j < i ensures !MatchesAt(s, j, pattern, true) {
      assert s[j + k] == s[..i + k][j + k];
      OtherThanLetter(s[j + k], pattern[k]);
    }
  }

  /** The three parts of the sample query below. */
  predicate SampleQuery(select: string, body: string, order: string) {
    select == "select x " && body == "from T where y=1" && order == " order by x"
  }

  /** The select list and the order by are dropped: "select count(*) from T where y=1". */
  lemma CountOfOrderedQuery(select: string, body: string, order: string)
    requires SampleQuery(select, body, order)
    ensures PrepareCountHql(select + body + order) == Ok(CountPrefix + body)
  {
    var hql := select + body + order;
    SampleQueryFrom(select, body, order);
    SampleQueryOrderBy(select, body, order);
    SampleQueryGroupBy(select, body, order);
    assert hql[9..25] == body;
  }

  lemma SampleQueryFrom(select: string, body: string, order: string)
    requires SampleQuery(select, body, order)
    ensures IndexOf(select + body + order, "from ", true) == 9
  {
    var hql := select + body + order;
    assert hql[..9] == select;
    assert MatchesAt(hql, 9, "from ", true) by {
      forall j | 0 <= j < 5 ensures hql[9 + j] == body[j] { }
    }
    NoMatchBefore(hql, 9, "from ", 0);
    FirstMatchIsIndexOf(hql, 9, "from ");
  }

  lemma SampleQueryOrderBy(select: string, body: string, order: string)
    requires SampleQuery(select, body, order)
    ensures IndexOf(select + body + order, " order by ", true) == 25
  {
    var hql := select + body + order;
    assert hql[..28] == select + body + order[..3];
    assert 'd' !in select && 'd' !in body && 'd' !in order[..3];
    assert 'D' !in select && 'D' !in body && 'D' !in order[..3];
    assert MatchesAt(hql, 25, " order by ", true) by {
      forall j | 0 <= j < 10 ensures hql[25 + j] == order[j] { }
    }
    NoMatchBefore(hql, 25, " order by ", 3);
    FirstMatchIsIndexOf(hql, 25, " order by ");
  }

  lemma SampleQueryGroupBy(select: string, body: string, order: string)
    requires SampleQuery(select, body, order)
    ensures IndexOf(select + body + order, " group by ", true) == -1
  {
    var hql := select + body + order;
    assert hql[..|hql|] == hql;
    NoMatchBefore(hql, |hql| - 1, " group by ", 1);
    NoMatchIsIndexOf(hql, " group by ");
  }

  /** A grouped query is refused. */
  lemma CountOfGroupedQueryFails(hql: string)
    requires hql == "select a from T group by a"
    ensures PrepareCountHql(hql) == Err(GroupByUnsupported)
  {
    assert MatchesAt(hql, 9, "from ", true);
    assert MatchesAt(hql, 15, " group by ", true);
    assert !MatchesAt(hql, 0, " group by ", true) by {
      assert !SameChar(hql[0], " group by "[0], true);
    }
    PrepareCountHqlFails(hql);
  }

  /** A query without "from " is refused, whatever else it says. */
  lemma CountWithoutFromFails(hql: string)
    requires hql == "select 1"
    ensures PrepareCountHql(hql) == Err(MissingFrom)
  {
    assert hql[..|hql| + 0] == hql;
    NoMatchBefore(hql, |hql|, "from ", 0);
    PrepareCountHqlFails(hql);
  }

  // ---------------------------------------------------------------------------
  // countSQLResult

  /**
   * The count query countSQLResult runs, or None when it returns 0 without
   * querying: the lower-cased SQL must contain "from".
   */
  function CountSqlText(sql: string): (r: Option<string>)
    ensures r.None? <==> !Occurs(sql, "from")
    ensures r.Some? ==> |r.value| == |CountSqlPrefix| + |sql| + |CountSqlSuffix|
    ensures r.Some? ==> CountSqlPrefix <= r.value
    ensures r.Some? ==> r.value[|CountSqlPrefix|..|CountSqlPrefix| + |sql|] == sql
    ensures r.Some? ==> r.value[|CountSqlPrefix| + |sql|..] == CountSqlSuffix
  {
    LowerSearchIsCaseInsensitive(sql, "from", 0);
    NoMatchIsIndexOf(sql, "from");
    if IndexOf(LowerText(sql), "from", false) == -1 then None
    else Some(CountSqlPrefix + sql + CountSqlSuffix)
  }

  // ---------------------------------------------------------------------------
  // appendOrderBy

  /** The order-by suffix, or DuplicateOrderBy when the query already says "order by" (case-sensitive). */
  function AppendOrderBy(query: string, sort: Option<string>): (r: Result<string>)
    ensures sort.None? ==> r == Ok("")
    ensures sort.Some? ==> (r.Err? <==> exists i :: MatchesAt(query, i, "order by", false))
    ensures r.Err? ==> r.error == DuplicateOrderBy
    ensures sort.Some? && r.Ok? ==> r.value == " order by " + sort.value
  {
    if sort.None? then Ok("")
    else if Contains(query, "order by") then Err(DuplicateOrderBy)
    else Ok(" order by " + sort.value)
  }

  /** A query extended by its order-by suffix refuses a second sort. */
  lemma {:induction false} AppendOrderByOnce(query: string, sort: string, again: string)
    requires AppendOrderBy(query, Some(sort)).Ok?
    ensures AppendOrderBy(query + AppendOrderBy(query, Some(sort)).value, Some(again)) == Err(DuplicateOrderBy)
  {
    var q := query + " order by " + sort;
    assert query + AppendOrderBy(query, Some(sort)).value == q;
    assert MatchesAt(q, |query| + 1, "order by", false) by {
      forall j | 0 <= j < |"order by"| ensures q[|query| + 1 + j] == "order by"[j] {
        assert q[|query| + 1 + j] == (" order by " + sort)[1 + j];
      }
    }
  }

  /** The check is case-sensitive: an upper-case ORDER BY passes, and the query then gets a second one. */
  lemma UpperCaseOrderByPasses(query: string)
    requires query == "from T ORDER BY a"
    ensures AppendOrderBy(query, Some("b")) == Ok(" order by b")
  {
    assert 'd' !in query;
    forall i | 0 <= i ensures !MatchesAt(query, i, "order by", false) {
      if i + 8 <= |query| {
        assert query[i + 3] in query;
        assert query[i + 3] != "order by"[3];
      }
    }
    assert !Contains(query, "order by");
    assert " order by " + "b" == " order by b";
  }
}
