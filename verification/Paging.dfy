/**
  Pages of a list behind decimal page tokens: the server (`getPage`), the clients that
  follow the tokens to the end (`fetch_pipelines`, `fetch_pipeline_versions`), and the
  table that lets a user page through the list while loads overlap.
 */
module Paging {
  import Decimal

  /* ---- The server ---- */

  const DEFAULT_PAGE_SIZE: nat := 20

  /** The empty token, like a missing or unreadable one, is the start of the list. */
  function TokenNumber(token: string): nat {
    if Decimal.AllDigits(token) then Decimal.Read(token) else 0
  }

  function PageSize(requested: nat): nat {
    if requested == 0 then DEFAULT_PAGE_SIZE else requested
  }

  function Min(a: nat, b: nat): nat {
    if a < b then a else b
  }

  function NextToken<T>(list: seq<T>, token: string, requested: nat): string {
    var end := TokenNumber(token) + PageSize(requested);
    if end < |list| then Decimal.Print(end) else ""
  }

  function Page<T>(list: seq<T>, token: string, requested: nat): seq<T> {
    var start := Min(TokenNumber(token), |list|);
    list[start..Min(TokenNumber(token) + PageSize(requested), |list|)]
  }

  /* ---- Following the tokens ---- */

  /** Collects page after page until a page comes without a token: the whole list, once, in order. */
  method FetchAll<T>(list: seq<T>, batchSize: nat) returns (items: seq<T>)
    ensures items == list
  {
    items := [];
    var pageToken := "";
    while true
      invariant TokenNumber(pageToken) <= |list|
      invariant items == list[..TokenNumber(pageToken)]
      decreases |list| - TokenNumber(pageToken)
    {
      items := items + Page(list, pageToken, batchSize);
      var next := NextToken(list, pageToken, batchSize);
      Decimal.ReadPrint(TokenNumber(pageToken) + PageSize(batchSize));
      if next == "" {
        break;
      }
      pageToken := next;
    }
  }

  /* ---- The table ---- */

  const MAX_SAFE_INTEGER: nat := 0x1F_FFFF_FFFF_FFFF

  /** A load under way: the page asked for and the greatest page known when it was asked for. */
  datatype Load = Load(target: nat, maxPageIndex: nat)

  datatype Table = Table(currentPage: nat, maxPageIndex: nat, tokenList: seq<string>)

  const NEW_TABLE := Table(0, MAX_SAFE_INTEGER, [""])

  /** The offsets of the buttons and of the first load. */
  type Offset = x: int | -1 <= x <= 1

  /** `_pageChanged` up to the point where it waits. */
  function Begin(t: Table, offset: Offset): Load {
    var page := if t.currentPage + offset < 0 then 0 else t.currentPage + offset;
    Load(if page < t.maxPageIndex then page else t.maxPageIndex, t.maxPageIndex)
  }

  /** `_pageChanged` from there on, with the token that came back. */
  function End(t: Table, load: Load, newToken: string): Table {
    Table(
      load.target,
      if newToken == "" then load.target else load.maxPageIndex,
      if newToken != "" && load.target + 1 == |t.tokenList| then t.tokenList + [newToken] else t.tokenList)
  }

  /** `_resetToFirstPage`, after a sort, a filter or a new page size. */
  function Reset(newToken: string): Table {
    if newToken != "" then Table(0, MAX_SAFE_INTEGER, ["", newToken]) else Table(0, 0, [""])
  }

  /** The page shown has a token, and so has the next one unless this is the last. */
  ghost predicate TableOk(t: Table) {
    && t.currentPage < |t.tokenList|
    && t.currentPage <= t.maxPageIndex
    && (t.currentPage + 1 < |t.tokenList| || t.currentPage == t.maxPageIndex)
  }

  /** A load under way asks for a page whose token is known. */
  ghost predicate LoadOk(t: Table, load: Load) {
    load.target < |t.tokenList| && load.target <= load.maxPageIndex
  }

  lemma BeginOk(t: Table, offset: Offset)
    requires TableOk(t)
    ensures LoadOk(t, Begin(t, offset))
  {
  }

  /** The first load, on a new table, is in order as well. */
  lemma FirstLoadOk()
    ensures LoadOk(NEW_TABLE, Begin(NEW_TABLE, 0))
  {
  }

  /** A load leaves the table in order exactly when the token list still reaches the page it asked for. */
  lemma EndExactly(t: Table, load: Load, newToken: string)
    requires load.target <= load.maxPageIndex
    ensures TableOk(End(t, load, newToken)) <==> load.target < |t.tokenList|
  {
  }

  /** Loads that are still under way stay in order, so any number of page changes may overlap. */
  lemma OthersStayOk(t: Table, load: Load, newToken: string, other: Load)
    requires LoadOk(t, load) && LoadOk(t, other)
    ensures LoadOk(End(t, load, newToken), other)
  {
  }

  /** Two overlapping loads of the same page store its successor's token once. */
  lemma TokenStoredOnce(t: Table, load: Load, other: Load, first: string, second: string)
    requires load.target == other.target < |t.tokenList| && first != ""
    ensures var once := End(t, load, first);
            End(once, other, second).tokenList == once.tokenList
            && |t.tokenList| <= |once.tokenList| <= |t.tokenList| + 1
            && t.tokenList <= once.tokenList
  {
  }

  /** A sort that finishes during a page change can leave the table out of order. */
  lemma ResetDuringLoad(t: Table, load: Load, newToken: string, answer: string)
    requires LoadOk(t, load)
    ensures TableOk(End(Reset(newToken), load, answer)) <==> load.target == 0 || (load.target == 1 && newToken != "")
  {
  }

  /** What the user and an arbitrary server do: each answer brings any token or none. */
  datatype Move = Ask(offset: Offset) | Answer(i: nat, token: string) | StartOver(token: string)

  datatype Session = Session(table: Table, loads: seq<Load>)

  /** A sort, filter or new page size counts only while no page change is under way. */
  function Play(s: Session, m: Move): Session {
    match m
    case Ask(offset) => s.(loads := s.loads + [Begin(s.table, offset)])
    case Answer(i, token) =>
      if i >= |s.loads| then s
      else Session(End(s.table, s.loads[i], token), s.loads[..i] + s.loads[i + 1..])
    case StartOver(token) => if s.loads == [] then s.(table := Reset(token)) else s
  }

  function PlayAll(s: Session, moves: seq<Move>): Session
    decreases |moves|
  {
    if moves == [] then s else PlayAll(Play(s, moves[0]), moves[1..])
  }

  ghost predicate SessionOk(s: Session) {
    TableOk(s.table) && forall i :: 0 <= i < |s.loads| ==> LoadOk(s.table, s.loads[i])
  }

  lemma AnswerOk(s: Session, i: nat, token: string)
    requires SessionOk(s) && i < |s.loads|
    ensures SessionOk(Play(s, Answer(i, token)))
    ensures s.table.tokenList <= Play(s, Answer(i, token)).table.tokenList
  {
    var load, after := s.loads[i], Play(s, Answer(i, token));
    EndExactly(s.table, load, token);
    forall j | 0 <= j < |after.loads| ensures LoadOk(after.table, after.loads[j]) {
      assert after.loads[j] in s.loads;
      OthersStayOk(s.table, load, token, after.loads[j]);
    }
  }

  lemma PlayOk(s: Session, m: Move)
    requires SessionOk(s)
    ensures SessionOk(Play(s, m))
  {
    if m.Answer? && m.i < |s.loads| {
      AnswerOk(s, m.i, m.token);
    } else if m.Ask? {
      BeginOk(s.table, m.offset);
    }
  }

  /** Whatever the server answers and in whatever order, every sequence of moves keeps the table in order. */
  lemma {:induction false} AnyServerOk(s: Session, moves: seq<Move>)
    requires SessionOk(s)
    ensures SessionOk(PlayAll(s, moves))
    ensures (forall m :: m in moves ==> !m.StartOver?) ==> s.table.tokenList <= PlayAll(s, moves).table.tokenList
    decreases |moves|
  {
    if moves != [] {
      if moves[0].Answer? && moves[0].i < |s.loads| {
        AnswerOk(s, moves[0].i, moves[0].token);
      }
      PlayOk(s, moves[0]);
      AnyServerOk(Play(s, moves[0]), moves[1..]);
      assert moves[0] in moves && forall m :: m in moves[1..] ==> m in moves;
    }
  }

  /* ---- The table in front of the server ---- */

  /** How many rows stand before the page. */
  function FirstRow(page: nat, size: nat): nat {
    page * PageSize(size)
  }

  lemma FirstRows(page: nat, size: nat)
    ensures FirstRow(0, size) == 0 && FirstRow(1, size) == PageSize(size)
    ensures FirstRow(page + 1, size) == FirstRow(page, size) + PageSize(size)
    ensures page > 0 ==> FirstRow(page, size) >= PageSize(size)
  {
  }

  /** The token list holds the tokens of the first pages of the list. */
  ghost predicate TokensRight<T>(t: Table, list: seq<T>, size: nat) {
    && t.tokenList != [] && t.tokenList[0] == ""
    && forall i :: 0 < i < |t.tokenList| ==>
         t.tokenList[i] == Decimal.Print(FirstRow(i, size)) && FirstRow(i, size) < |list|
  }

  /** A known greatest page is the last page of the list. */
  ghost predicate MaxRight<T>(maxPageIndex: nat, list: seq<T>, size: nat) {
    maxPageIndex == MAX_SAFE_INTEGER || IsLastPage(maxPageIndex, list, size)
  }

  ghost predicate IsLastPage<T>(page: nat, list: seq<T>, size: nat) {
    (page == 0 || FirstRow(page, size) < |list|) && |list| <= FirstRow(page + 1, size)
  }

  ghost predicate Accurate<T>(t: Table, list: seq<T>, size: nat) {
    TableOk(t) && TokensRight(t, list, size) && MaxRight(t.maxPageIndex, list, size)
  }

  /** The rows of page number `page`. */
  function Slice<T>(list: seq<T>, page: nat, size: nat): seq<T> {
    FirstRows(page, size);
    list[Min(FirstRow(page, size), |list|)..Min(FirstRow(page + 1, size), |list|)]
  }

  lemma TokenOfPage<T>(t: Table, list: seq<T>, size: nat, page: nat)
    requires TokensRight(t, list, size) && page < |t.tokenList|
    ensures TokenNumber(t.tokenList[page]) == FirstRow(page, size)
  {
    if page > 0 {
      Decimal.ReadPrint(FirstRow(page, size));
    } else {
      assert Decimal.Read("") == 0;
    }
  }

  /** Every page change shows the rows of the page it says it shows, whatever other page changes overlap. */
  lemma LoadAccurate<T>(t: Table, load: Load, list: seq<T>, size: nat)
    requires Accurate(t, list, size) || (t == NEW_TABLE && load == Begin(NEW_TABLE, 0))
    requires LoadOk(t, load) && MaxRight(load.maxPageIndex, list, size)
    ensures var token := t.tokenList[load.target];
            && Page(list, token, size) == Slice(list, load.target, size)
            && Accurate(End(t, load, NextToken(list, token, size)), list, size)
            && End(t, load, NextToken(list, token, size)).currentPage == load.target
  {
    TokenOfPage(t, list, size, load.target);
    FirstRows(load.target, size);
    var newToken := NextToken(list, t.tokenList[load.target], size);
    hide FirstRow, PageSize, Decimal.Print, TokenNumber;
    LoadTokens(t, load, list, size, newToken);
  }

  /** The tokens after a load that brought the token of the next page, or none at the end of the list. */
  lemma LoadTokens<T>(t: Table, load: Load, list: seq<T>, size: nat, newToken: string)
    requires TokensRight(t, list, size) && LoadOk(t, load) && MaxRight(load.maxPageIndex, list, size)
    requires TableOk(t) || t == NEW_TABLE
    requires var next := FirstRow(load.target + 1, size);
             newToken == if next < |list| then Decimal.Print(next) else ""
    ensures Accurate(End(t, load, newToken), list, size)
  {
    var r := End(t, load, newToken);
    hide FirstRow;
    forall i | 0 < i < |r.tokenList|
      ensures r.tokenList[i] == Decimal.Print(FirstRow(i, size)) && FirstRow(i, size) < |list|
    {
      if i == |t.tokenList| {
        assert i == load.target + 1;
      } else {
        assert r.tokenList[i] == t.tokenList[i];
      }
    }
  }

  lemma ResetAccurate<T>(list: seq<T>, size: nat)
    ensures Accurate(Reset(NextToken(list, "", size)), list, size)
    ensures Page(list, "", size) == Slice(list, 0, size)
  {
    Decimal.ReadPrint(PageSize(size));
    assert Decimal.Read("") == 0;
    FirstRows(0, size);
    hide FirstRow, PageSize, Decimal.Print;
  }

  /* ---- The whole component ---- */

  /** The list behind the server, the rows per page, the state of the pager and the rows shown. */
  datatype Desk<T> = Desk(list: seq<T>, size: nat, session: Session, rows: seq<T>)

  /** Sorting and filtering change the list behind the server. */
  datatype Action<T> =
    | Click(offset: Offset)
    | Arrive(i: nat)
    | Sort(sorted: seq<T>)
    | Filter(filtered: seq<T>)
    | RowsPerPage(size: nat)

  /** A new table once its first load has finished. */
  function NewDesk<T>(list: seq<T>, size: nat): Desk<T> {
    Desk(list, size, Session(End(NEW_TABLE, Begin(NEW_TABLE, 0), NextToken(list, "", size)), []), Page(list, "", size))
  }

  /** Reloads with `token` and goes back to the first page, while no page change is under way. */
  function Restart<T>(d: Desk<T>, list: seq<T>, size: nat, token: string): (r: Desk<T>)
    requires SessionOk(d.session)
    ensures SessionOk(r.session)
  {
    var move := StartOver(NextToken(list, token, size));
    PlayOk(d.session, move);
    if d.session.loads != [] then d else Desk(list, size, Play(d.session, move), Page(list, token, size))
  }

  /** A filter reloads with the token of the page shown; a sort and a new page size with the empty token. */
  function Act<T>(d: Desk<T>, a: Action<T>): (r: Desk<T>)
    requires SessionOk(d.session)
    ensures SessionOk(r.session)
  {
    var t := d.session.table;
    match a
    case Click(offset) =>
      PlayOk(d.session, Ask(offset));
      d.(session := Play(d.session, Ask(offset)))
    case Arrive(i) =>
      if i >= |d.session.loads| then d
      else
        var token := t.tokenList[d.session.loads[i].target];
        var move := Answer(i, NextToken(d.list, token, d.size));
        PlayOk(d.session, move);
        d.(session := Play(d.session, move), rows := Page(d.list, token, d.size))
    case Sort(sorted) => Restart(d, sorted, d.size, "")
    case Filter(filtered) => Restart(d, filtered, d.size, t.tokenList[t.currentPage])
    case RowsPerPage(size) => Restart(d, d.list, size, "")
  }

  function ActAll<T>(d: Desk<T>, actions: seq<Action<T>>): (r: Desk<T>)
    requires SessionOk(d.session)
    ensures SessionOk(r.session)
    decreases |actions|
  {
    if actions == [] then d else ActAll(Act(d, actions[0]), actions[1..])
  }

  /** Pages, tokens and rows are those of the list. */
  ghost predicate DeskAccurate<T>(d: Desk<T>) {
    && Accurate(d.session.table, d.list, d.size)
    && d.rows == Slice(d.list, d.session.table.currentPage, d.size)
    && forall i :: 0 <= i < |d.session.loads| ==>
         LoadOk(d.session.table, d.session.loads[i]) && MaxRight(d.session.loads[i].maxPageIndex, d.list, d.size)
  }

  lemma NewDeskAccurate<T>(list: seq<T>, size: nat)
    ensures DeskAccurate(NewDesk(list, size))
  {
    FirstLoadOk();
    LoadAccurate(NEW_TABLE, Begin(NEW_TABLE, 0), list, size);
  }

  lemma ArriveAccurate<T>(d: Desk<T>, i: nat)
    requires DeskAccurate(d) && i < |d.session.loads|
    ensures DeskAccurate(Act(d, Arrive(i)))
  {
    var load, r := d.session.loads[i], Act(d, Arrive(i));
    LoadAccurate(d.session.table, load, d.list, d.size);
    assert r.session.loads == d.session.loads[..i] + d.session.loads[i + 1..];
    assert Accurate(r.session.table, r.list, r.size) && r.rows == Slice(r.list, r.session.table.currentPage, r.size);
    hide Act, Accurate, Slice, MaxRight, LoadOk, TableOk;
    forall j | 0 <= j < |r.session.loads|
      ensures MaxRight(r.session.loads[j].maxPageIndex, d.list, d.size)
    {
      assert r.session.loads[j] in d.session.loads;
    }
  }

  /** A sort or a new page size makes the table accurate, whatever it was before. */
  lemma RestartAccurate<T>(d: Desk<T>, list: seq<T>, size: nat)
    requires SessionOk(d.session) && d.session.loads == []
    ensures DeskAccurate(Restart(d, list, size, ""))
  {
    ResetAccurate(list, size);
  }

  /** A filter keeps the table accurate exactly on the first page, or when nothing is left to show. */
  lemma FilterExactly<T>(d: Desk<T>, filtered: seq<T>)
    requires DeskAccurate(d) && d.session.loads == []
    ensures DeskAccurate(Act(d, Filter(filtered))) <==> d.session.table.currentPage == 0 || filtered == []
  {
    var t := d.session.table;
    TokenOfPage(t, d.list, d.size, t.currentPage);
    ResetAccurate(filtered, d.size);
    FirstRows(t.currentPage, d.size);
    if t.currentPage > 0 && filtered != [] {
      var token := t.tokenList[t.currentPage];
      LaterPageDiffers(filtered, token, d.size, Act(d, Filter(filtered)));
    }
  }

  /** A page that starts later is not the first one, or the token after it is not that of the second. */
  lemma LaterPageDiffers<T>(filtered: seq<T>, token: string, size: nat, r: Desk<T>)
    requires TokenNumber(token) >= PageSize(size) && filtered != []
    requires r.list == filtered && r.size == size && r.session.table == Reset(NextToken(filtered, token, size))
    requires r.rows == Page(filtered, token, size)
    ensures !DeskAccurate(r)
  {
    var offset, n := TokenNumber(token), PageSize(size);
    FirstRows(0, size);
    if offset + n < |filtered| {
      Decimal.ReadPrint(offset + n);
      Decimal.ReadPrint(n);
      assert r.session.table.tokenList[1] == Decimal.Print(offset + n) != Decimal.Print(FirstRow(1, size));
    } else if n < |filtered| {
      assert r.session.table.maxPageIndex == 0 && !IsLastPage(0, filtered, size);
    } else {
      assert |r.rows| == 0 && |Slice(filtered, 0, size)| > 0;
    }
  }

  /** The rows of a page, spelled out: 20 a page unless another number is asked for. */
  lemma SliceSpelled<T>(list: seq<T>, page: nat, size: nat)
    ensures var n := if size == 0 then 20 else size;
            && (page * n > |list| ==> Slice(list, page, size) == [])
            && (page * n <= |list| ==>
                  Slice(list, page, size) == list[page * n..if page * n + n < |list| then page * n + n else |list|])
  {
    FirstRows(page, size);
  }

  /** The page a click on a button leads to: the next one if there is one, or the one before. */
  function Turned(page: nat, rows: nat, n: nat, forward: bool): nat {
    if forward then if (page + 1) * n < rows then page + 1 else page
    else if page > 0 then page - 1 else 0
  }

  lemma PagesAscend(p: nat, q: nat, size: nat)
    requires p <= q
    ensures FirstRow(p, size) <= FirstRow(q, size)
  {
    var n := PageSize(size);
    assert (q - p) * n >= 0;
    assert q * n == p * n + (q - p) * n;
  }

  lemma BeginTurns<T>(t: Table, list: seq<T>, size: nat, forward: bool)
    requires Accurate(t, list, size) && |list| < 0x1F_FFFF_FFFF_FFFF
    ensures Begin(t, if forward then 1 else -1).target ==
            Turned(t.currentPage, |list|, if size == 0 then 20 else size, forward)
  {
    var p, max := t.currentPage, t.maxPageIndex;
    assert FirstRow(p + 1, size) == (p + 1) * (if size == 0 then 20 else size);
    FirstRows(p, size);
    if forward {
      assert p > 0 ==> FirstRow(p, size) >= p by {
        PageAtLeast(p, size);
      }
      if max != MAX_SAFE_INTEGER {
        if p < max {
          PagesAscend(p + 1, max, size);
        }
      } else {
        PageKnown(t, list, size);
      }
    }
    hide FirstRow;
  }

  lemma PageAtLeast(p: nat, size: nat)
    ensures FirstRow(p, size) >= p
  {
    var n := PageSize(size);
    assert p * (n - 1) >= 0;
    assert p * n == p + p * (n - 1);
  }

  /** While the greatest page is not known the page shown is below the greatest number. */
  lemma PageKnown<T>(t: Table, list: seq<T>, size: nat)
    requires Accurate(t, list, size) && |list| < 0x1F_FFFF_FFFF_FFFF && t.maxPageIndex == MAX_SAFE_INTEGER
    ensures t.currentPage < MAX_SAFE_INTEGER && FirstRow(t.currentPage + 1, size) < |list|
  {
    PageAtLeast(t.currentPage, size);
    hide FirstRow;
  }

  /** Turning the page shows the rows of the page before or, as long as there is one, of the next one. */
  lemma PageTurned<T>(d: Desk<T>, forward: bool)
    requires DeskAccurate(d) && d.session.loads == [] && |d.list| < 0x1F_FFFF_FFFF_FFFF
    ensures
      var page := Turned(d.session.table.currentPage, |d.list|, if d.size == 0 then 20 else d.size, forward);
      var r := ActAll(d, [Click(if forward then 1 else -1), Arrive(0)]);
      && r.session.table.currentPage == page && r.rows == Slice(d.list, page, d.size)
      && r.list == d.list && r.session.loads == []
  {
    var click: Action<T> := Click(if forward then 1 else -1);
    var d1 := Act(d, click);
    BeginTurns(d.session.table, d.list, d.size, forward);
    ActAccurate(d, click);
    ArriveAccurate(d1, 0);
    var actions := [click, Arrive(0)];
    assert actions[1..] == [Arrive(0)] && actions[1..][1..] == [];
    assert d1.session.loads == [Begin(d.session.table, click.offset)];
    assert ActAll(d, actions) == ActAll(d1, [Arrive(0)]) == Act(d1, Arrive(0));
    hide DeskAccurate, Turned;
  }

  /** Go to the second page and filter: the second page is shown as the first one. */
  lemma FilterOnSecondPage<T>(list: seq<T>, size: nat)
    requires |list| > 2 * PageSize(size)
    ensures var n, d := PageSize(size), ActAll(NewDesk(list, size), [Click(1), Arrive(0), Filter(list)]);
            && d.session.table.currentPage == 0 && d.rows == list[n..2 * n]
            && d.session.table.tokenList == ["", Decimal.Print(2 * n)]
            && !DeskAccurate(d)
  {
    var n := PageSize(size);
    var d0 := NewDesk(list, size);
    NewDeskAccurate(list, size);
    Decimal.ReadPrint(n);
    assert Decimal.Read("") == 0;
    var d1 := Act(d0, Click(1));
    var d2 := Act(d1, Arrive(0));
    ThreeActions(d0, Click(1), Arrive(0), Filter(list));
    assert d0.session.table == Table(0, MAX_SAFE_INTEGER, ["", Decimal.Print(n)]);
    assert d1.session.loads == [Load(1, MAX_SAFE_INTEGER)];
    assert DeskAccurate(d1);
    ArriveAccurate(d1, 0);
    assert d2.session.table.currentPage == 1 && d2.session.table.tokenList[1] == Decimal.Print(n);
    FilterExactly(d2, list);
  }

  lemma ThreeActions<T>(d: Desk<T>, a: Action<T>, b: Action<T>, c: Action<T>)
    requires SessionOk(d.session)
    ensures ActAll(d, [a, b, c]) == Act(Act(Act(d, a), b), c)
  {
    assert [a, b, c][1..] == [b, c] && [b, c][1..] == [c] && [c][1..] == [];
    var d1 := Act(d, a);
    var d2 := Act(d1, b);
    assert ActAll(d2, [c]) == Act(d2, c);
    assert ActAll(d1, [b, c]) == ActAll(d2, [c]);
  }

  /** Every filter happens on the first page or leaves nothing to show. */
  ghost predicate FiltersFirst<T>(d: Desk<T>, actions: seq<Action<T>>)
    requires SessionOk(d.session)
    decreases |actions|
  {
    actions == [] || (
      && (actions[0].Filter? ==> d.session.table.currentPage == 0 || actions[0].filtered == [])
      && FiltersFirst(Act(d, actions[0]), actions[1..]))
  }

  lemma ActAccurate<T>(d: Desk<T>, a: Action<T>)
    requires DeskAccurate(d) && (a.Filter? ==> d.session.table.currentPage == 0 || a.filtered == [])
    ensures DeskAccurate(Act(d, a))
  {
    match a
    case Click(offset) => BeginOk(d.session.table, offset);
    case Arrive(i) =>
      if i < |d.session.loads| {
        ArriveAccurate(d, i);
      }
    case Sort(sorted) =>
      if d.session.loads == [] {
        RestartAccurate(d, sorted, d.size);
      }
    case Filter(filtered) =>
      if d.session.loads == [] {
        FilterExactly(d, filtered);
      }
    case RowsPerPage(size) =>
      if d.session.loads == [] {
        RestartAccurate(d, d.list, size);
      }
  }

  /** Clicks, answers in any order, sorts, page sizes and such filters keep pages, tokens and rows right. */
  lemma {:induction false} UseAccurate<T>(d: Desk<T>, actions: seq<Action<T>>)
    requires DeskAccurate(d) && FiltersFirst(d, actions)
    ensures DeskAccurate(ActAll(d, actions))
    decreases |actions|
  {
    if actions != [] {
      ActAccurate(d, actions[0]);
      hide DeskAccurate, Act;
      UseAccurate(Act(d, actions[0]), actions[1..]);
    }
  }

  /** The component's state and its event handlers. */
  class CustomTable<T> {
    var list: seq<T>
    var size: nat
    var currentPage: nat
    var maxPageIndex: nat
    var tokenList: seq<string>
    var loads: seq<Load>
    var rows: seq<T>

    ghost function State(): Table
      reads this
    {
      Table(currentPage, maxPageIndex, tokenList)
    }

    ghost function View(): Desk<T>
      reads this
    {
      Desk(list, size, Session(State(), loads), rows)
    }

    ghost predicate Valid()
      reads this
    {
      SessionOk(View().session)
    }

    /** The first load has to finish before the table can be paged. */
    constructor (list: seq<T>, size: nat)
      ensures Valid() && View() == NewDesk(list, size)
    {
      this.list, this.size := list, size;
      currentPage, maxPageIndex, tokenList := 0, MAX_SAFE_INTEGER, [""];
      loads := [];
      rows := [];
      new;
      NewDeskAccurate(list, size);
      FinishPageChange(Begin(NEW_TABLE, 0));
    }

    method BeginPageChange(offset: Offset)
      requires Valid()
      modifies this`loads
      ensures Valid() && View() == Act(old(View()), Click(offset))
    {
      BeginOk(State(), offset);
      var page := if currentPage + offset < 0 then 0 else currentPage + offset;
      if maxPageIndex < page {
        page := maxPageIndex;
      }
      loads := loads + [Load(page, maxPageIndex)];
    }

    method FinishPageChange(load: Load)
      requires load.target < |tokenList|
      modifies this`currentPage, this`maxPageIndex, this`tokenList, this`rows
      ensures State() == End(old(State()), load, NextToken(list, old(tokenList[load.target]), size))
      ensures rows == Page(list, old(tokenList[load.target]), size)
    {
      var token := tokenList[load.target];
      var newToken := NextToken(list, token, size);
      rows := Page(list, token, size);
      maxPageIndex := load.maxPageIndex;
      if newToken != "" {
        if load.target + 1 == |tokenList| {
          tokenList := tokenList + [newToken];
        }
      } else {
        maxPageIndex := load.target;
      }
      currentPage := load.target;
    }

    /** The answers of overlapping loads may arrive in any order. */
    method AnswerArrives(i: nat)
      requires Valid() && i < |loads|
      modifies this
      ensures Valid() && View() == Act(old(View()), Arrive(i))
    {
      var load := loads[i];
      AnswerOk(Session(State(), loads), i, NextToken(list, tokenList[load.target], size));
      loads := loads[..i] + loads[i + 1..];
      FinishPageChange(load);
    }

    method ResetToFirstPage(newToken: string)
      modifies this`currentPage, this`maxPageIndex, this`tokenList
      ensures State() == Reset(newToken)
    {
      maxPageIndex, tokenList := MAX_SAFE_INTEGER, [""];
      if newToken != "" {
        tokenList := tokenList + [newToken];
      } else {
        maxPageIndex := 0;
      }
      currentPage := 0;
    }

    method RequestSort(sorted: seq<T>)
      requires Valid() && loads == []
      modifies this
      ensures Valid() && View() == Act(old(View()), Sort(sorted))
    {
      list := sorted;
      rows := Page(list, "", size);
      ResetToFirstPage(NextToken(list, "", size));
    }

    /** The request carries no token of its own, so that of the page shown is sent. */
    method RequestFilter(filtered: seq<T>)
      requires Valid() && loads == []
      modifies this
      ensures Valid() && View() == Act(old(View()), Filter(filtered))
    {
      var token := tokenList[currentPage];
      list := filtered;
      rows := Page(list, token, size);
      ResetToFirstPage(NextToken(list, token, size));
    }

    method RequestRowsPerPage(newSize: nat)
      requires Valid() && loads == []
      modifies this
      ensures Valid() && View() == Act(old(View()), RowsPerPage(newSize))
    {
      size := newSize;
      rows := Page(list, "", size);
      ResetToFirstPage(NextToken(list, "", size));
    }

    /** Any sequence of clicks, answers, sorts, filters and page sizes. */
    method Use(actions: seq<Action<T>>)
      requires Valid()
      modifies this
      ensures Valid() && View() == ActAll(old(View()), actions)
    {
      for k := 0 to |actions|
        invariant Valid()
        invariant ActAll(View(), actions[k..]) == ActAll(old(View()), actions)
      {
        assert actions[k..][1..] == actions[k + 1..];
        match actions[k] {
          case Click(offset) => BeginPageChange(offset);
          case Arrive(i) =>
            if i < |loads| {
              AnswerArrives(i);
            }
          case Sort(sorted) =>
            if loads == [] {
              RequestSort(sorted);
            }
          case Filter(filtered) =>
            if loads == [] {
              RequestFilter(filtered);
            }
          case RowsPerPage(newSize) =>
            if loads == [] {
              RequestRowsPerPage(newSize);
            }
        }
      }
    }
  }
}
