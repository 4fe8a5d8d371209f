/**
 * The query `getOrders` (server/routes/reports.js:18-35) sends for an optional
 * date range: its SQL text, assembled from fixed clauses, and the values bound
 * to its placeholders.
 */
module OrdersQuery {
  import opened Common

  /** The fixed pieces `getOrders` appends to its SQL text, in the order it may append them. */
  datatype Clause = SelectOrders | WhereAlways | OnOrAfter | OnOrBefore | NewestFirst

  /** The SQL text of a clause; the two date comparisons each carry one `?` placeholder. */
  function ClauseText(c: Clause): string {
    match c
    case SelectOrders => "SELECT * FROM purchaseOrders"
    case WhereAlways => " WHERE 1=1"
    case OnOrAfter => " AND date(orderDate) >= date(?)"
    case OnOrBefore => " AND date(orderDate) <= date(?)"
    case NewestFirst => " ORDER BY orderDate DESC"
  }

  predicate HasPlaceholder(c: Clause) {
    c.OnOrAfter? || c.OnOrBefore?
  }

  /**
   * The text of a sequence of clauses, each written by `text`. The model uses
   * it with `ClauseText`; facts about the order of the pieces hold for any `text`.
   */
  function Render(cs: seq<Clause>, text: Clause -> string): string {
    if cs == [] then "" else Render(cs[..|cs| - 1], text) + text(cs[|cs| - 1])
  }

  /** The clauses that carry a placeholder, in order: the `k`-th is bound to the `k`-th parameter. */
  function Placeholders(cs: seq<Clause>): (r: seq<Clause>)
    ensures |r| <= |cs|
    ensures forall k :: 0 <= k < |r| ==> HasPlaceholder(r[k])
  {
    if cs == [] then []
    else
      var last := cs[|cs| - 1];
      Placeholders(cs[..|cs| - 1]) + if HasPlaceholder(last) then [last] else []
  }

  lemma RenderSnoc(cs: seq<Clause>, c: Clause, text: Clause -> string)
    ensures Render(cs + [c], text) == Render(cs, text) + text(c)
  {
    assert (cs + [c])[..|cs|] == cs;
  }

  lemma PlaceholdersSnoc(cs: seq<Clause>, c: Clause)
    ensures Placeholders(cs + [c]) == Placeholders(cs) + if HasPlaceholder(c) then [c] else []
  {
    assert (cs + [c])[..|cs|] == cs;
  }

  /** The text of a non-empty clause sequence starts with the text of its first clause and ends with that of its last. */
  lemma {:induction false} RenderFrame(cs: seq<Clause>, text: Clause -> string)
    requires cs != []
    ensures |text(cs[0])| <= |Render(cs, text)|
    ensures Render(cs, text)[..|text(cs[0])|] == text(cs[0])
    ensures |text(cs[|cs| - 1])| <= |Render(cs, text)|
    ensures Render(cs, text)[|Render(cs, text)| - |text(cs[|cs| - 1])|..] == text(cs[|cs| - 1])
  {
    if |cs| > 1 {
      var init := cs[..|cs| - 1];
      RenderFrame(init, text);
      assert init[0] == cs[0];
    }
  }

  /** A query-string value is used only when truthy: absent and `''` are both falsy. */
  predicate Given(x: Option<string>) {
    x.Some? && x.value != ""
  }

  /** The clauses of the query for the range `start`..`end`, as appended: a bound that is not given adds no condition. */
  function QueryClauses(start: Option<string>, end: Option<string>): seq<Clause> {
    if Given(start) && Given(end) then [SelectOrders] + [WhereAlways] + [OnOrAfter] + [OnOrBefore] + [NewestFirst]
    else if Given(start) then [SelectOrders] + [WhereAlways] + [OnOrAfter] + [NewestFirst]
    else if Given(end) then [SelectOrders] + [WhereAlways] + [OnOrBefore] + [NewestFirst]
    else [SelectOrders] + [NewestFirst]
  }

  /** The values bound to the query's placeholders: `[start]`, `[end]`, `[start, end]` or none. */
  function QueryParams(start: Option<string>, end: Option<string>): seq<string> {
    if Given(start) && Given(end) then [start.value, end.value]
    else if Given(start) then [start.value]
    else if Given(end) then [end.value]
    else []
  }

  lemma RenderBothBounds(text: Clause -> string)
    ensures Render([SelectOrders] + [WhereAlways] + [OnOrAfter] + [OnOrBefore] + [NewestFirst], text)
      == text(SelectOrders) + text(WhereAlways) + text(OnOrAfter) + text(OnOrBefore) + text(NewestFirst)
  {
    var w := [SelectOrders] + [WhereAlways];
    RenderSnoc([], SelectOrders, text);
    RenderSnoc([SelectOrders], WhereAlways, text);
    RenderSnoc(w, OnOrAfter, text);
    RenderSnoc(w + [OnOrAfter], OnOrBefore, text);
    RenderSnoc(w + [OnOrAfter] + [OnOrBefore], NewestFirst, text);
  }

  lemma RenderOneBound(c: Clause, text: Clause -> string)
    ensures Render([SelectOrders] + [WhereAlways] + [c] + [NewestFirst], text)
      == text(SelectOrders) + text(WhereAlways) + text(c) + text(NewestFirst)
  {
    var w := [SelectOrders] + [WhereAlways];
    RenderSnoc([], SelectOrders, text);
    RenderSnoc([SelectOrders], WhereAlways, text);
    RenderSnoc(w, c, text);
    RenderSnoc(w + [c], NewestFirst, text);
  }

  lemma RenderNoBound(text: Clause -> string)
    ensures Render([SelectOrders] + [NewestFirst], text) == text(SelectOrders) + text(NewestFirst)
  {
    RenderSnoc([], SelectOrders, text);
    RenderSnoc([SelectOrders], NewestFirst, text);
  }

  /** The text of the query's clauses, piece by piece. */
  lemma RenderQuery(start: Option<string>, end: Option<string>, text: Clause -> string)
    ensures Render(QueryClauses(start, end), text) ==
      if Given(start) && Given(end) then text(SelectOrders) + text(WhereAlways) + text(OnOrAfter) + text(OnOrBefore) + text(NewestFirst)
      else if Given(start) then text(SelectOrders) + text(WhereAlways) + text(OnOrAfter) + text(NewestFirst)
      else if Given(end) then text(SelectOrders) + text(WhereAlways) + text(OnOrBefore) + text(NewestFirst)
      else text(SelectOrders) + text(NewestFirst)
  {
    if Given(start) && Given(end) {
      RenderBothBounds(text);
    } else if Given(start) {
      RenderOneBound(OnOrAfter, text);
    } else if Given(end) {
      RenderOneBound(OnOrBefore, text);
    } else {
      RenderNoBound(text);
    }
  }

  /** The placeholders of the query: the lower bound's, then the upper bound's, each only when given. */
  lemma QueryPlaceholders(start: Option<string>, end: Option<string>)
    ensures Placeholders(QueryClauses(start, end)) ==
      (if Given(start) then [OnOrAfter] else []) + (if Given(end) then [OnOrBefore] else [])
  {
    var s := [SelectOrders];
    assert s == [] + [SelectOrders];
    PlaceholdersSnoc([], SelectOrders);
    if Given(start) || Given(end) {
      var w := s + [WhereAlways];
      PlaceholdersSnoc(s, WhereAlways);
      if Given(start) && Given(end) {
        PlaceholdersSnoc(w, OnOrAfter);
        PlaceholdersSnoc(w + [OnOrAfter], OnOrBefore);
        PlaceholdersSnoc(w + [OnOrAfter] + [OnOrBefore], NewestFirst);
      } else if Given(start) {
        PlaceholdersSnoc(w, OnOrAfter);
        PlaceholdersSnoc(w + [OnOrAfter], NewestFirst);
      } else {
        PlaceholdersSnoc(w, OnOrBefore);
        PlaceholdersSnoc(w + [OnOrBefore], NewestFirst);
      }
    } else {
      PlaceholdersSnoc(s, NewestFirst);
    }
  }

  /**
   * `getOrders(start, end)` up to the database call: the SQL text, built by
   * appending clauses, and the parameter list, built by pushing the bounds.
   */
  method BuildOrdersQuery(start: Option<string>, end: Option<string>) returns (sql: string, params: seq<string>)
    ensures sql == Render(QueryClauses(start, end), ClauseText)
    ensures params == QueryParams(start, end)
  {
    sql := "SELECT * FROM purchaseOrders";
    params := [];
    if Given(start) || Given(end) {
      sql := sql + " WHERE 1=1";
      if Given(start) {
        sql := sql + " AND date(orderDate) >= date(?)";
        params := params + [start.value];
      }
      if Given(end) {
        sql := sql + " AND date(orderDate) <= date(?)";
        params := params + [end.value];
      }
    }
    sql := sql + " ORDER BY orderDate DESC";
    RenderQuery(start, end, ClauseText);
  }

  /**
   * The query selects from `purchaseOrders` and ends by ordering the newest
   * first; it has a WHERE clause exactly when a bound is given, and then that
   * clause comes straight after the SELECT; the inclusive lower (`>=`) and
   * upper (`<=`) comparisons are present exactly when their bound is given.
   */
  lemma QueryShape(start: Option<string>, end: Option<string>)
    ensures var cs := QueryClauses(start, end);
      && |cs| >= 2 && cs[0] == SelectOrders && cs[|cs| - 1] == NewestFirst
      && (WhereAlways in cs <==> Given(start) || Given(end))
      && ((Given(start) || Given(end)) ==> cs[1] == WhereAlways)
      && (OnOrAfter in cs <==> Given(start))
      && (OnOrBefore in cs <==> Given(end))
  {
  }

  /** With neither bound the query has no WHERE clause and no parameters. */
  lemma QueryUnbounded(start: Option<string>, end: Option<string>)
    requires !Given(start) && !Given(end)
    ensures QueryClauses(start, end) == [SelectOrders, NewestFirst]
    ensures Render(QueryClauses(start, end), ClauseText) == ClauseText(SelectOrders) + ClauseText(NewestFirst)
    ensures QueryParams(start, end) == []
  {
    RenderQuery(start, end, ClauseText);
  }

  /**
   * There are as many placeholders as parameters, and each placeholder is
   * bound to the bound its comparison is about: `>=` to `start`, `<=` to `end`.
   */
  lemma QueryBindings(start: Option<string>, end: Option<string>)
    ensures |Placeholders(QueryClauses(start, end))| == |QueryParams(start, end)|
    ensures forall k :: 0 <= k < |QueryParams(start, end)| ==>
      (Placeholders(QueryClauses(start, end))[k] == OnOrAfter ==> Given(start) && QueryParams(start, end)[k] == start.value) &&
      (Placeholders(QueryClauses(start, end))[k] == OnOrBefore ==> Given(end) && QueryParams(start, end)[k] == end.value)
  {
    QueryPlaceholders(start, end);
  }

  /** As text, every query starts with the SELECT from `purchaseOrders` and ends with the ORDER BY. */
  lemma QueryFrame(start: Option<string>, end: Option<string>)
    ensures |ClauseText(SelectOrders)| + |ClauseText(NewestFirst)| <= |Render(QueryClauses(start, end), ClauseText)|
    ensures Render(QueryClauses(start, end), ClauseText)[..|ClauseText(SelectOrders)|] == ClauseText(SelectOrders)
    ensures var sql := Render(QueryClauses(start, end), ClauseText);
      sql[|sql| - |ClauseText(NewestFirst)|..] == ClauseText(NewestFirst)
  {
    QueryShape(start, end);
    RenderFrame(QueryClauses(start, end), ClauseText);
    RenderQuery(start, end, ClauseText);
  }
}
