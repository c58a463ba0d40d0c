/** Cursor pagination of the standalone stores (List in axisml-standalone/resourcepool_store.go and
    tenant_store.go): pages in name order, continued after the last name of the page before, while the
    table changes freely between pages. */
module Paging {
  import opened Options
  import opened Strings
  import opened Base64Url
  import opened VersionedStore

  type Labels = map<string, string>

  /** The answer of the ordered query: the live names, ascending in Go's string order. */
  ghost predicate IsListing<S>(t: Table<S>, records: seq<string>) {
    && Ascending(records)
    && (forall n :: n in records <==> Live(t, n))
  }

  /** Names are non-empty byte strings. */
  ghost predicate ProperNames<S>(t: Table<S>) { forall n | n in t :: n != "" && IsBytes(n) }

  predicate Keeps<S>(t: Table<S>, matches: Labels -> bool, after: string, n: string) {
    n in t && !Le(n, after) && matches(t[n].obj.labels)
  }

  function Selected<S>(t: Table<S>, records: seq<string>, matches: Labels -> bool, after: string): (out: seq<string>)
    ensures forall n | n in out :: n in records
  {
    if records == [] then []
    else (if Keeps(t, matches, after, records[0]) then [records[0]] else []) + Selected(t, records[1..], matches, after)
  }

  /** The name a token continues after; None is a bad token. */
  function AfterOf(token: string): Option<string> {
    if token == "" then Some("")
    else var d := Decode(token); if d.None? || d.value == "" then None else d
  }

  predicate Truncates(selected: seq<string>, limit: int) { limit > 0 && |selected| > limit }

  datatype Page = Page(names: seq<string>, token: string)

  function Cut(selected: seq<string>, limit: int): Page
    requires forall n | n in selected :: IsBytes(n)
  {
    if Truncates(selected, limit) then Page(selected[..limit], Encode(selected[limit - 1])) else Page(selected, "")
  }

  /** What one List request sees: the table, the query's answer, and its limit. */
  datatype Read<S> = Read(table: Table<S>, records: seq<string>, limit: int)

  ghost predicate ProperRead<S>(r: Read<S>) { IsListing(r.table, r.records) && ProperNames(r.table) }

  ghost predicate IsPage<S>(r: Read<S>, matches: Labels -> bool, token: string, p: Page)
    requires ProperRead(r)
  {
    AfterOf(token).Some? && p == Cut(Selected(r.table, r.records, matches, AfterOf(token).value), r.limit)
  }

  /** The filtering loop of List. */
  method Filter<S>(t: Table<S>, records: seq<string>, matches: Labels -> bool, after: string) returns (names: seq<string>)
    requires forall n | n in records :: n in t
    ensures names == Selected(t, records, matches, after)
  {
    names := [];
    for i := 0 to |records|
      invariant names + Selected(t, records[i..], matches, after) == Selected(t, records, matches, after)
    {
      var n, rest := records[i], records[i + 1..];
      assert n in records && records[i..][1..] == rest;
      if Le(n, after) || !matches(t[n].obj.labels) {
        assert [] + Selected(t, rest, matches, after) == Selected(t, rest, matches, after);
      } else {
        assert names + ([n] + Selected(t, rest, matches, after)) == names + [n] + Selected(t, rest, matches, after);
        names := names + [n];
      }
    }
    assert records[|records|..] == [] && names + [] == names;
  }

  /** List: parse the selector (None does not parse), decode the token, filter the ordered rows, cut
      at the limit. */
  method List<S>(t: Table<S>, records: seq<string>, selector: Option<Labels -> bool>, token: string, limit: int)
    returns (page: Option<Page>, items: seq<Object<S>>)
    requires ProperRead(Read(t, records, limit))
    ensures page == None <==> selector.None? || AfterOf(token).None?
    ensures page.Some? ==> IsPage(Read(t, records, limit), selector.value, token, page.value)
    ensures page.Some? ==> |items| == |page.value.names|
    ensures page.Some? ==>
              forall i | 0 <= i < |items| :: page.value.names[i] in t && items[i] == FromRecord(t[page.value.names[i]])
  {
    if selector.None? {
      return None, [];
    }
    var after := "";
    if token != "" {
      var decoded := Decode(token);
      if decoded.None? || decoded.value == "" {
        return None, [];
      }
      after := decoded.value;
    }
    assert forall n | n in records :: Live(t, n);
    var names := Filter(t, records, selector.value, after);
    var p := Cut(names, limit);
    items := Decoded(t, p.names);
    page := Some(p);
  }

  method Decoded<S>(t: Table<S>, names: seq<string>) returns (items: seq<Object<S>>)
    requires forall n | n in names :: n in t
    ensures |items| == |names| && forall i | 0 <= i < |items| :: names[i] in t && items[i] == FromRecord(t[names[i]])
  {
    items := [];
    for i := 0 to |names|
      invariant |items| == i && forall j | 0 <= j < i :: items[j] == FromRecord(t[names[j]])
    {
      items := items + [FromRecord(t[names[i]])];
    }
  }

  // ---- One page ---------------------------------------------------------------------------------------

  ghost predicate Ascending(names: seq<string>) { forall i, j | 0 <= i < j < |names| :: Lt(names[i], names[j]) }

  lemma AscendingTail(names: seq<string>)
    requires Ascending(names) && names != []
    ensures Ascending(names[1..]) && forall y | y in names[1..] :: Lt(names[0], y)
  {
  }

  lemma JoinAscending(a: seq<string>, b: seq<string>)
    requires Ascending(a) && Ascending(b) && forall x, y | x in a && y in b :: Lt(x, y)
    ensures Ascending(a + b)
  {
    forall i, j | 0 <= i < j < |a + b|
      ensures Lt((a + b)[i], (a + b)[j])
    {
      if i < |a| && j >= |a| { assert (a + b)[i] in a && (a + b)[j] in b; }
    }
  }

  lemma {:induction false} SelectedAscends<S>(t: Table<S>, records: seq<string>, matches: Labels -> bool, after: string)
    requires Ascending(records)
    ensures Ascending(Selected(t, records, matches, after))
  {
    if records != [] {
      AscendingTail(records);
      SelectedAscends(t, records[1..], matches, after);
      JoinAscending(if Keeps(t, matches, after, records[0]) then [records[0]] else [], Selected(t, records[1..], matches, after));
    }
  }

  lemma {:induction false} SelectedMembers<S>(t: Table<S>, records: seq<string>, matches: Labels -> bool, after: string, n: string)
    ensures n in Selected(t, records, matches, after) <==> n in records && Keeps(t, matches, after, n)
  {
    if records != [] {
      SelectedMembers(t, records[1..], matches, after, n);
      assert records == [records[0]] + records[1..];
    }
  }

  /** The filter gives exactly the matching names after the cursor, in order. */
  lemma SelectedShape<S>(t: Table<S>, records: seq<string>, matches: Labels -> bool, after: string)
    requires Ascending(records)
    ensures forall n :: n in Selected(t, records, matches, after) <==> n in records && Keeps(t, matches, after, n)
    ensures Ascending(Selected(t, records, matches, after))
  {
    forall n
      ensures n in Selected(t, records, matches, after) <==> n in records && Keeps(t, matches, after, n)
    {
      SelectedMembers(t, records, matches, after, n);
    }
    SelectedAscends(t, records, matches, after);
  }

  /** Live and matching in what this request sees. */
  predicate Shows<S>(r: Read<S>, matches: Labels -> bool, n: string) {
    Live(r.table, n) && matches(r.table[n].obj.labels)
  }

  /** A page lists, in ascending order, exactly the shown names after its cursor and, when it is cut
      short, up to its last name, which is where its token continues. */
  lemma PageShape<S>(r: Read<S>, matches: Labels -> bool, token: string, p: Page)
    requires ProperRead(r) && IsPage(r, matches, token, p)
    ensures Ascending(p.names)
    ensures p.token != "" ==> p.names != [] && AfterOf(p.token) == Some(p.names[|p.names| - 1])
    ensures forall n :: n in p.names <==>
              Shows(r, matches, n) && !Le(n, AfterOf(token).value) &&
              (p.token != "" ==> Le(n, p.names[|p.names| - 1]))
  {
    var after := AfterOf(token).value;
    var all := Selected(r.table, r.records, matches, after);
    SelectedShape(r.table, r.records, matches, after);
    assert forall n :: n in all <==> Shows(r, matches, n) && !Le(n, after);
    CutShape(all, r.limit, p);
  }

  /** Cutting ascending names at a limit: all of them, or those up to the name the token holds. */
  lemma CutShape(all: seq<string>, limit: int, p: Page)
    requires Ascending(all) && (forall n | n in all :: n != "" && IsBytes(n)) && p == Cut(all, limit)
    ensures Ascending(p.names)
    ensures p.token != "" ==> p.names != [] && AfterOf(p.token) == Some(p.names[|p.names| - 1])
    ensures forall n :: n in p.names <==> n in all && (p.token != "" ==> Le(n, p.names[|p.names| - 1]))
  {
    if Truncates(all, limit) {
      var last := all[limit - 1];
      assert last in all && p.names[|p.names| - 1] == last;
      TokenContinues(last);
      forall n
        ensures n in p.names <==> n in all && Le(n, last)
      {
        CutAt(all, limit, n);
      }
    }
  }

  /** The token of a name continues after that name. */
  lemma TokenContinues(name: string)
    requires name != "" && IsBytes(name)
    ensures Encode(name) != "" && AfterOf(Encode(name)) == Some(name)
  {
    RoundTrip(name);
  }

  lemma {:induction false} AscendingSize(names: seq<string>)
    requires Ascending(names)
    ensures |set n | n in names| == |names|
  {
    if names != [] {
      var last, front := names[|names| - 1], names[..|names| - 1];
      AscendingSize(front);
      assert last !in front;
      assert (set n | n in names) == (set n | n in front) + {last};
    }
  }

  /** The shown names after the cursor. */
  ghost function Remaining<S>(r: Read<S>, matches: Labels -> bool, after: string): set<string> {
    set n | n in r.records && Shows(r, matches, n) && !Le(n, after)
  }

  /** The size of a page: a positive limit is never exceeded, and is used up before the listing is cut;
      a token is given exactly when more names than that are shown after the cursor. */
  lemma PageSize<S>(r: Read<S>, matches: Labels -> bool, token: string, p: Page)
    requires ProperRead(r) && IsPage(r, matches, token, p)
    ensures r.limit > 0 ==> |p.names| <= r.limit
    ensures p.token != "" <==> r.limit > 0 && |Remaining(r, matches, AfterOf(token).value)| > r.limit
    ensures p.token != "" ==> |p.names| == r.limit
    ensures p.token == "" ==> (set n | n in p.names) == Remaining(r, matches, AfterOf(token).value)
  {
    var after := AfterOf(token).value;
    var all := Selected(r.table, r.records, matches, after);
    SelectedShape(r.table, r.records, matches, after);
    assert forall n :: n in all <==> n in Remaining(r, matches, after);
    assert (set n | n in all) == Remaining(r, matches, after);
    AscendingSize(all);
    if Truncates(all, r.limit) {
      assert all[r.limit - 1] in all;
      TokenContinues(all[r.limit - 1]);
    }
  }

  lemma CutAt(all: seq<string>, limit: nat, n: string)
    requires Ascending(all) && 0 < limit <= |all|
    ensures n in all[..limit] <==> n in all && Le(n, all[limit - 1])
  {
    if n in all[..limit] {
      var i :| 0 <= i < limit && all[..limit][i] == n;
      assert all[i] == n;
      if i == limit - 1 { LeReflexive(n); }
    }
    if n in all && Le(n, all[limit - 1]) {
      var i :| 0 <= i < |all| && all[i] == n;
      if i >= limit {
        assert Lt(all[limit - 1], all[i]);
        LeAntisymmetric(n, all[limit - 1]);
      }
      assert all[..limit][i] == n;
    }
  }

  // ---- Following the tokens -----------------------------------------------------------------------------

  function TokenBefore(pages: seq<Page>, k: nat): string
    requires k <= |pages|
  {
    if k == 0 then "" else pages[k - 1].token
  }

  /** A client follows the tokens from the first page; every read may see a different table. */
  ghost predicate Follows<S>(views: seq<Read<S>>, matches: Labels -> bool, pages: seq<Page>)
    decreases |pages|
  {
    |pages| == |views| &&
    (pages == [] ||
     var m := |pages| - 1;
     && Follows(views[..m], matches, pages[..m]) && (m > 0 ==> pages[m - 1].token != "")
     && ProperRead(views[m]) && IsPage(views[m], matches, TokenBefore(pages, m), pages[m]))
  }

  /** Everything a client has seen. */
  function Collected(pages: seq<Page>): seq<string>
  {
    if pages == [] then [] else Collected(pages[..|pages| - 1]) + pages[|pages| - 1].names
  }

  /** Without a limit the first page is the last and lists exactly the shown names. */
  lemma UnlimitedListsAll<S>(r: Read<S>, matches: Labels -> bool, p: Page)
    requires ProperRead(r) && r.limit <= 0 && IsPage(r, matches, "", p)
    ensures p.token == "" && Follows([r], matches, [p])
    ensures forall n :: n in p.names <==> Shows(r, matches, n)
  {
    PageShape(r, matches, "", p);
    assert TokenBefore([p], 0) == "";
    forall n | Shows(r, matches, n)
      ensures !Le(n, "")
    {
      assert n in r.table;
    }
  }

  // ---- The journey without its encoding ----------------------------------------------------------------

  /** A page request with its tokens decoded: the cursor, the names, and the next cursor if any. */
  datatype Leg = Leg(after: string, names: seq<string>, next: Option<string>)

  function LegOf(token: string, p: Page): Leg
    requires AfterOf(token).Some?
  {
    Leg(AfterOf(token).value, p.names, if p.token == "" then None else AfterOf(p.token))
  }

  /** The names start after the cursor, ascend, and do not go past the next cursor. */
  ghost predicate Neat(l: Leg) {
    && Ascending(l.names) && (forall n | n in l.names :: !Le(n, l.after))
    && (l.next.Some? ==> l.names != [] && forall n | n in l.names :: Le(n, l.next.value))
  }

  /** Where the journey stands after m legs. */
  function Cursor(legs: seq<Leg>, m: nat): Option<string>
    requires m <= |legs|
  {
    if m == 0 then Some("") else legs[m - 1].next
  }

  /** The first m legs are neat, and each starts where the one before it ended. */
  ghost predicate Journey(legs: seq<Leg>, m: nat)
    requires m <= |legs|
  {
    m == 0 || (Journey(legs, m - 1) && Neat(legs[m - 1]) && Cursor(legs, m - 1) == Some(legs[m - 1].after))
  }

  function Seen(legs: seq<Leg>, m: nat): seq<string>
    requires m <= |legs|
  {
    if m == 0 then [] else Seen(legs, m - 1) + legs[m - 1].names
  }

  /** Nothing lies past the cursor. */
  ghost predicate Behind(names: seq<string>, cursor: Option<string>) {
    cursor.Some? ==> forall n | n in names :: Le(n, cursor.value)
  }

  lemma LegContinues(before: seq<string>, l: Leg)
    requires Ascending(before) && Behind(before, Some(l.after)) && Neat(l)
    ensures Ascending(before + l.names) && Behind(before + l.names, l.next)
  {
    forall a, b | a in before && b in l.names
      ensures Lt(a, b)
    {
      LeTotal(b, l.after);
      LtTransitive(a, l.after, b);
    }
    JoinAscending(before, l.names);
    if l.next.Some? {
      var b := l.names[0];
      forall n | n in before
        ensures Le(n, l.next.value)
      {
        assert b in l.names && Lt(n, b);
        LeTransitive(n, b, l.next.value);
      }
    }
  }

  /** What has been seen when the next page is asked for: ascending, and nothing past the cursor. */
  lemma {:induction false} SeenAscends(legs: seq<Leg>, m: nat)
    requires m <= |legs| && Journey(legs, m)
    ensures Ascending(Seen(legs, m)) && Behind(Seen(legs, m), Cursor(legs, m))
  {
    if m > 0 {
      SeenAscends(legs, m - 1);
      LegContinues(Seen(legs, m - 1), legs[m - 1]);
    }
  }

  /** The leg does not lose n: n is at or before its cursor, listed, or after the next cursor. */
  predicate Passes(l: Leg, n: string) {
    Le(n, l.after) || n in l.names || (l.next.Some? && !Le(n, l.next.value))
  }

  ghost predicate PassesAll(legs: seq<Leg>, n: string, m: nat)
    requires m <= |legs|
  {
    m == 0 || (PassesAll(legs, n, m - 1) && Passes(legs[m - 1], n))
  }

  /** A name that no leg loses has been seen unless it is beyond the cursor. */
  lemma {:induction false} NothingSkipped(legs: seq<Leg>, n: string, m: nat)
    requires n != "" && m <= |legs| && Journey(legs, m) && PassesAll(legs, n, m)
    ensures n in Seen(legs, m) || (Cursor(legs, m).Some? && !Le(n, Cursor(legs, m).value))
  {
    if m > 0 { NothingSkipped(legs, n, m - 1); }
  }

  // ---- From pages to legs --------------------------------------------------------------------------------

  lemma PageIsNeat<S>(r: Read<S>, matches: Labels -> bool, token: string, p: Page)
    requires ProperRead(r) && IsPage(r, matches, token, p)
    ensures Neat(LegOf(token, p)) && (p.token != "" ==> AfterOf(p.token).Some?)
  {
    PageShape(r, matches, token, p);
  }

  lemma ShownPasses<S>(r: Read<S>, matches: Labels -> bool, token: string, p: Page, n: string)
    requires ProperRead(r) && IsPage(r, matches, token, p) && Shows(r, matches, n)
    ensures n != "" && Passes(LegOf(token, p), n)
  {
    PageShape(r, matches, token, p);
    assert n in r.table;
  }

  lemma {:induction false} JourneyPrefix(legs: seq<Leg>, more: seq<Leg>, m: nat)
    requires m <= |legs|
    ensures Journey(legs, m) ==> Journey(legs + more, m)
    ensures Seen(legs, m) == Seen(legs + more, m) && Cursor(legs, m) == Cursor(legs + more, m)
  {
    if m > 0 { JourneyPrefix(legs, more, m - 1); }
  }

  lemma {:induction false} PassesPrefix(legs: seq<Leg>, more: seq<Leg>, n: string, m: nat)
    requires m <= |legs|
    ensures PassesAll(legs, n, m) ==> PassesAll(legs + more, n, m)
  {
    if m > 0 { PassesPrefix(legs, more, n, m - 1); }
  }

  lemma JourneyOn(legs: seq<Leg>, l: Leg)
    requires Journey(legs, |legs|) && Neat(l) && Cursor(legs, |legs|) == Some(l.after)
    ensures var all := legs + [l];
            && Journey(all, |all|) && Seen(all, |all|) == Seen(legs, |legs|) + l.names && Cursor(all, |all|) == l.next
  {
    JourneyPrefix(legs, [l], |legs|);
  }

  /** The cursor a client goes on with after these pages. */
  function NextCursor(pages: seq<Page>): Option<string> {
    if pages == [] then Some("")
    else if pages[|pages| - 1].token == "" then None else AfterOf(pages[|pages| - 1].token)
  }

  /** Every listed name was live and matching when its page was read. */
  ghost predicate ListsShown<S>(views: seq<Read<S>>, matches: Labels -> bool, pages: seq<Page>) {
    |pages| == |views| && forall k, n | 0 <= k < |pages| && n in pages[k].names :: Shows(views[k], matches, n)
  }

  lemma PageListsShown<S>(r: Read<S>, matches: Labels -> bool, token: string, p: Page)
    requires ProperRead(r) && IsPage(r, matches, token, p)
    ensures forall n | n in p.names :: Shows(r, matches, n)
  {
    PageShape(r, matches, token, p);
  }

  lemma ListsOneMore<S>(views: seq<Read<S>>, matches: Labels -> bool, pages: seq<Page>)
    requires |pages| == |views| > 0
    requires var m := |pages| - 1;
             ListsShown(views[..m], matches, pages[..m]) && forall n | n in pages[m].names :: Shows(views[m], matches, n)
    ensures ListsShown(views, matches, pages)
  {
    var m := |pages| - 1;
    forall k, n | 0 <= k < |pages| && n in pages[k].names
      ensures Shows(views[k], matches, n)
    {
      if k < m { assert pages[k] == pages[..m][k] && views[k] == views[..m][k]; }
    }
  }

  /** The legs of a journey along pages whose tokens are good. */
  function LegsOf(pages: seq<Page>): (legs: seq<Leg>)
    ensures |legs| == |pages|
  {
    if pages == [] then []
    else
      var m := |pages| - 1;
      var token := TokenBefore(pages, m);
      LegsOf(pages[..m]) + [if AfterOf(token).Some? then LegOf(token, pages[m]) else Leg("", [], None)]
  }

  /** Following the tokens is a journey that sees what the client collects. */
  lemma {:induction false} Unrolled<S>(views: seq<Read<S>>, matches: Labels -> bool, pages: seq<Page>)
    requires Follows(views, matches, pages)
    ensures var legs := LegsOf(pages);
            Journey(legs, |legs|) && Seen(legs, |legs|) == Collected(pages) && Cursor(legs, |legs|) == NextCursor(pages)
    decreases |pages|
  {
    if pages != [] {
      var m := |pages| - 1;
      var token, p := TokenBefore(pages, m), pages[m];
      Unrolled(views[..m], matches, pages[..m]);
      PageIsNeat(views[m], matches, token, p);
      assert NextCursor(pages[..m]) == AfterOf(token);
      JourneyOn(LegsOf(pages[..m]), LegOf(token, p));
    }
  }

  lemma {:induction false} ShownPassesAll<S>(views: seq<Read<S>>, matches: Labels -> bool, pages: seq<Page>, n: string)
    requires Follows(views, matches, pages) && ShownThroughout(views, matches, n)
    ensures PassesAll(LegsOf(pages), n, |pages|) && (pages != [] ==> n != "")
    decreases |pages|
  {
    if pages != [] {
      var m := |pages| - 1;
      var token, p := TokenBefore(pages, m), pages[m];
      assert ShownThroughout(views[..m], matches, n);
      ShownPassesAll(views[..m], matches, pages[..m], n);
      ShownPasses(views[m], matches, token, p, n);
      PassesPrefix(LegsOf(pages[..m]), [LegOf(token, p)], n, m);
    }
  }

  lemma {:induction false} ListedWasShown<S>(views: seq<Read<S>>, matches: Labels -> bool, pages: seq<Page>)
    requires Follows(views, matches, pages)
    ensures ListsShown(views, matches, pages)
    decreases |pages|
  {
    if pages != [] {
      var m := |pages| - 1;
      ListedWasShown(views[..m], matches, pages[..m]);
      PageListsShown(views[m], matches, TokenBefore(pages, m), pages[m]);
      ListsOneMore(views, matches, pages);
    }
  }

  /** Live and matching at all the views. */
  ghost predicate ShownThroughout<S>(views: seq<Read<S>>, matches: Labels -> bool, n: string) {
    forall k | 0 <= k < |views| :: Shows(views[k], matches, n)
  }

  /** Following the tokens to the end: names come in strictly ascending order, so none repeats;
      every name that is live and matching at all the views is listed; and every listed name was
      live and matching when its page was read. */
  lemma PagingIsExact<S>(views: seq<Read<S>>, matches: Labels -> bool, pages: seq<Page>)
    requires Follows(views, matches, pages) && pages != [] && pages[|pages| - 1].token == ""
    ensures Ascending(Collected(pages))
    ensures forall n | ShownThroughout(views, matches, n) :: n in Collected(pages)
    ensures ListsShown(views, matches, pages)
  {
    var legs := LegsOf(pages);
    Unrolled(views, matches, pages);
    SeenAscends(legs, |legs|);
    forall n | ShownThroughout(views, matches, n)
      ensures n in Collected(pages)
    {
      ShownPassesAll(views, matches, pages, n);
      NothingSkipped(legs, n, |legs|);
    }
    ListedWasShown(views, matches, pages);
  }
}
