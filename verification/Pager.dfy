/** The explorer's paging through an account's activity rows. */
module Pager {
  import opened Bits
  import opened Wrappers
  import opened Bytes
  import opened Ledger
  import opened History
  import opened Chain
  import opened Rows

  const ACCOUNT_PAGE_SIZE: nat := 10
  const ACCOUNT_CURSOR_BYTES: nat := 24

  datatype Mode = All | Sent | Received

  /** The part of the `tx_activity` key that orders one account's rows. */
  datatype Position = Position(height: nat, index: nat, role: nat) {
    predicate FitsU64() {
      height <= U64_MAX && index <= U64_MAX && role <= U64_MAX
    }
  }

  function PositionOf(r: SqlRow): Position
    requires r.TxActivity?
  {
    Position(r.blockHeight, r.index, if r.role == Sender then 0 else 1)
  }

  /** The `WHERE` clause built from a cursor. */
  predicate Before(p: Position, cursor: Position) {
    || p.height < cursor.height
    || (p.height == cursor.height && p.index < cursor.index)
    || (p.height == cursor.height && p.index == cursor.index && p.role < cursor.role)
  }

  predicate Matches(r: SqlRow, account: AccountKey, mode: Mode) {
    && r.TxActivity? && r.account == account
    && (mode == Sent ==> r.role == Sender)
    && (mode == Received ==> r.role == Receiver)
  }

  // ----- Cursor bytes -----

  function EncodeCursor(p: Position): (bs: seq<Byte>)
    ensures |bs| == ACCOUNT_CURSOR_BYTES
  {
    BeBytes(p.height, 8) + BeBytes(p.index, 8) + BeBytes(p.role, 8)
  }

  function DecodeCursor(bs: seq<Byte>): Option<Position> {
    if |bs| != ACCOUNT_CURSOR_BYTES then None
    else Some(Position(BeValue(bs[..8]), BeValue(bs[8..16]), BeValue(bs[16..])))
  }

  lemma {:induction false} CursorRoundTrip(p: Position)
    requires p.FitsU64()
    ensures DecodeCursor(EncodeCursor(p)) == Some(p)
    ensures var bs := EncodeCursor(p);
            BeValue(bs[0..8]) == p.height && BeValue(bs[8..16]) == p.index && BeValue(bs[16..24]) == p.role
  {
    WordSizes();
    BeValueOfBytes(p.height, 8);
    BeValueOfBytes(p.index, 8);
    BeValueOfBytes(p.role, 8);
    var bs := EncodeCursor(p);
    assert bs[..8] == BeBytes(p.height, 8) && bs[8..16] == BeBytes(p.index, 8) && bs[16..] == BeBytes(p.role, 8);
    assert bs[0..8] == bs[..8] && bs[16..24] == bs[16..];
  }

  lemma {:induction false} CursorReencodes(bs: seq<Byte>)
    requires DecodeCursor(bs).Some?
    ensures DecodeCursor(bs).value.FitsU64() && EncodeCursor(DecodeCursor(bs).value) == bs
  {
    WordSizes();
    BeBytesOfValue(bs[..8]);
    BeBytesOfValue(bs[8..16]);
    BeBytesOfValue(bs[16..]);
    assert bs == bs[..8] + bs[8..16] + bs[16..];
  }

  /** The low `n` bytes of an integer of either sign, in two's complement, most significant first. */
  function LowBe(value: int, n: nat): (bs: seq<Byte>)
    ensures |bs| == n
  {
    BeBytes(value % Pow256(n), n)
  }

  lemma {:induction false} LowBeUnfolds(value: int, n: nat)
    ensures LowBe(value, n + 1) == LowBe(value / 256, n) + [value % 256]
  {
    LowBytes(value, Pow256(n));
  }

  /** The bytes at `offset..offset + 8` become the low 64 bits of `value`, whatever its size and sign, and no others change. */
  method WriteU64Be(bytes: array<Byte>, offset: nat, value: int)
    requires offset + 8 <= bytes.Length
    modifies bytes
    ensures bytes[..] == old(bytes[..offset]) + LowBe(value, 8) + old(bytes[offset + 8..])
  {
    var remaining := value;
    var index := 7;
    while index >= 0
      invariant -1 <= index <= 7
      invariant LowBe(value, 8) == LowBe(remaining, index + 1) + bytes[offset + index + 1..offset + 8]
      invariant bytes[..offset] == old(bytes[..offset]) && bytes[offset + 8..] == old(bytes[offset + 8..])
      decreases index
    {
      ghost var written := bytes[offset + index + 1..offset + 8];
      LowBeUnfolds(remaining, index);
      bytes[offset + index] := remaining % 256;
      assert bytes[offset + index..offset + 8] == [remaining % 256] + written;
      remaining := remaining / 256;
      index := index - 1;
    }
    assert bytes[..] == bytes[..offset] + bytes[offset..offset + 8] + bytes[offset + 8..];
  }

  method ReadU64Be(bytes: array<Byte>, offset: nat) returns (value: nat)
    requires offset + 8 <= bytes.Length
    ensures value == BeValue(bytes[offset..offset + 8])
  {
    value := 0;
    for i := 0 to 8
      invariant value == BeValue(bytes[offset..offset + i])
    {
      BeValueSnoc(bytes[offset..offset + i], bytes[offset + i]);
      assert bytes[offset..offset + i + 1] == bytes[offset..offset + i] + [bytes[offset + i]];
      value := value * 256 + bytes[offset + i];
    }
  }

  method EncodeActivityCursor(p: Position) returns (cursor: array<Byte>)
    ensures cursor[..] == EncodeCursor(p)
  {
    BeBytesLow(p.height, 8);
    BeBytesLow(p.index, 8);
    BeBytesLow(p.role, 8);
    cursor := new Byte[24](_ => 0);
    WriteU64Be(cursor, 0, p.height);
    assert cursor[..8] == BeBytes(p.height, 8);
    WriteU64Be(cursor, 8, p.index);
    assert cursor[..16] == BeBytes(p.height, 8) + BeBytes(p.index, 8);
    WriteU64Be(cursor, 16, p.role);
  }

  method DecodeActivityCursor(cursor: array<Byte>) returns (p: Option<Position>)
    ensures p == DecodeCursor(cursor[..])
  {
    if cursor.Length != ACCOUNT_CURSOR_BYTES {
      return None;
    }
    var height := ReadU64Be(cursor, 0);
    var index := ReadU64Be(cursor, 8);
    var role := ReadU64Be(cursor, 16);
    assert cursor[..][..8] == cursor[0..8] && cursor[..][8..16] == cursor[8..16] && cursor[..][16..] == cursor[16..24];
    return Some(Position(height, index, role));
  }

  // ----- Queries -----

  /** The account's rows strictly below the cursor, or all of them. */
  ghost function Remaining(table: set<SqlRow>, account: AccountKey, mode: Mode, after: Option<Position>): set<SqlRow> {
    set r | r in table && Matches(r, account, mode) && (after.Some? ==> Before(PositionOf(r), after.value))
  }

  ghost predicate Descending(rows: seq<SqlRow>) {
    && (forall i | 0 <= i < |rows| :: rows[i].TxActivity?)
    && (forall i, j | 0 <= i < j < |rows| :: Before(PositionOf(rows[j]), PositionOf(rows[i])))
  }

  /** What the order means: newer blocks first, later transactions first, and a transaction's receiver before its sender. */
  lemma {:induction false} NewestFirst(rows: seq<SqlRow>, i: nat, j: nat)
    requires Descending(rows) && i < j < |rows|
    ensures rows[i].TxActivity? && rows[j].TxActivity? && rows[i] != rows[j]
    ensures rows[i].blockHeight >= rows[j].blockHeight
    ensures rows[i].blockHeight == rows[j].blockHeight ==> rows[i].index >= rows[j].index
    ensures rows[i].blockHeight == rows[j].blockHeight && rows[i].index == rows[j].index ==>
              rows[i].role == Receiver && rows[j].role == Sender
  {
    assert Before(PositionOf(rows[j]), PositionOf(rows[i]));
  }

  /** `ORDER BY height DESC, index DESC, role DESC LIMIT 11` over what remains. */
  ghost predicate Answers(remaining: set<SqlRow>, rows: seq<SqlRow>) {
    && |rows| <= ACCOUNT_PAGE_SIZE + 1
    && Descending(rows)
    && (forall r | r in rows :: r in remaining)
    && (forall r | r in remaining ::
          r in rows || (|rows| == ACCOUNT_PAGE_SIZE + 1 && r.TxActivity? && Before(PositionOf(r), PositionOf(rows[ACCOUNT_PAGE_SIZE]))))
  }

  type Engine = (AccountKey, Mode, Option<Position>) -> seq<SqlRow>

  /** The SQL service over this table. */
  ghost predicate Serves(sql: Engine, table: set<SqlRow>) {
    && (forall r | r in table && r.TxActivity? :: PositionOf(r).FitsU64())
    && (forall account, mode, after :: Answers(Remaining(table, account, mode, after), sql(account, mode, after)))
  }

  datatype Page = Page(rows: seq<SqlRow>, nextCursor: Option<seq<Byte>>)

  /** The first rows of an answer, and a cursor if there are more. */
  function MakePage(rows: seq<SqlRow>): Page
    requires forall r | r in rows :: r.TxActivity?
  {
    if |rows| > ACCOUNT_PAGE_SIZE
    then
      assert rows[ACCOUNT_PAGE_SIZE - 1] in rows;
      Page(rows[..ACCOUNT_PAGE_SIZE], Some(EncodeCursor(PositionOf(rows[ACCOUNT_PAGE_SIZE - 1]))))
    else Page(rows, None)
  }

  /** Where a cursor stands; no cursor stands above every row. */
  predicate ValidCursor(cursor: Option<seq<Byte>>) {
    cursor.Some? ==> DecodeCursor(cursor.value).Some?
  }

  function After(cursor: Option<seq<Byte>>): Option<Position>
    requires ValidCursor(cursor)
  {
    if cursor.None? then None else DecodeCursor(cursor.value)
  }

  /** `fetchAccountTransactionsPage`; nothing for a malformed cursor. */
  ghost function FetchPage(sql: Engine, table: set<SqlRow>, account: AccountKey, mode: Mode, cursor: Option<seq<Byte>>): Option<Page>
    requires Serves(sql, table)
  {
    if !ValidCursor(cursor) then None
    else
      assert Answers(Remaining(table, account, mode, After(cursor)), sql(account, mode, After(cursor)));
      Some(MakePage(sql(account, mode, After(cursor))))
  }

  /** A page and what remains after it are what remained before it, and the page is the newer part. */
  lemma {:induction false} PageSplits(sql: Engine, table: set<SqlRow>, account: AccountKey, mode: Mode, cursor: Option<seq<Byte>>)
    requires Serves(sql, table) && ValidCursor(cursor)
    ensures var page, before := FetchPage(sql, table, account, mode, cursor).value, Remaining(table, account, mode, After(cursor));
            && Descending(page.rows)
            && (forall r | r in page.rows :: r in before)
            && match page.nextCursor
               case None => forall r | r in before :: r in page.rows
               case Some(next) =>
                 && |page.rows| == ACCOUNT_PAGE_SIZE
                 && DecodeCursor(next) == Some(PositionOf(page.rows[ACCOUNT_PAGE_SIZE - 1]))
                 && forall r :: r in before <==> r in page.rows || r in Remaining(table, account, mode, DecodeCursor(next))
  {
    var after := After(cursor);
    var before, rows := Remaining(table, account, mode, after), sql(account, mode, after);
    assert Answers(before, rows);
    if |rows| > ACCOUNT_PAGE_SIZE {
      var last := rows[ACCOUNT_PAGE_SIZE - 1];
      assert last in rows && last in before;
      CursorRoundTrip(PositionOf(last));
      forall r | r in before ensures r in rows[..ACCOUNT_PAGE_SIZE] || Before(PositionOf(r), PositionOf(last)) {
        if r in rows {
          var i :| 0 <= i < |rows| && rows[i] == r;
          assert i < ACCOUNT_PAGE_SIZE ==> rows[..ACCOUNT_PAGE_SIZE][i] == r;
        }
      }
    }
  }

  lemma {:induction false} PageShrinks(sql: Engine, table: set<SqlRow>, account: AccountKey, mode: Mode, cursor: Option<seq<Byte>>)
    requires Serves(sql, table) && ValidCursor(cursor)
    ensures var page := FetchPage(sql, table, account, mode, cursor).value;
            page.nextCursor.Some? ==>
              && ValidCursor(page.nextCursor)
              && Remaining(table, account, mode, After(page.nextCursor)) < Remaining(table, account, mode, After(cursor))
  {
    PageSplits(sql, table, account, mode, cursor);
    var page := FetchPage(sql, table, account, mode, cursor).value;
    if page.nextCursor.Some? {
      var last := page.rows[ACCOUNT_PAGE_SIZE - 1];
      assert last in page.rows;
      assert last in Remaining(table, account, mode, After(cursor));
      assert last !in Remaining(table, account, mode, After(page.nextCursor));
    }
  }

  lemma {:induction false} DistinctFits(rows: seq<SqlRow>, all: set<SqlRow>)
    requires forall i, j | 0 <= i < j < |rows| :: rows[i] != rows[j]
    requires forall r | r in rows :: r in all
    ensures |rows| <= |all|
    decreases |rows|
  {
    if rows != [] {
      var n := |rows| - 1;
      assert rows[n] in rows;
      DistinctFits(rows[..n], all - {rows[n]});
    }
  }

  /** A page has ten rows, or all that remain if they are fewer, and gives a cursor exactly if more than ten remain. */
  lemma {:induction false} PageSizes(sql: Engine, table: set<SqlRow>, account: AccountKey, mode: Mode, cursor: Option<seq<Byte>>)
    requires Serves(sql, table) && ValidCursor(cursor)
    ensures var page, n := FetchPage(sql, table, account, mode, cursor).value, |Remaining(table, account, mode, After(cursor))|;
            && |page.rows| == (if n < 10 then n else 10)
            && (page.nextCursor.Some? <==> n > 10)
  {
    var before, rows := Remaining(table, account, mode, After(cursor)), sql(account, mode, After(cursor));
    assert Answers(before, rows);
    DistinctFits(rows, before);
    if |rows| <= ACCOUNT_PAGE_SIZE { FewInSeq(rows, before); }
  }

  /** The rows of all pages, following `nextCursor` until there is none. */
  ghost function AllRows(sql: Engine, table: set<SqlRow>, account: AccountKey, mode: Mode, cursor: Option<seq<Byte>>): seq<SqlRow>
    requires Serves(sql, table) && ValidCursor(cursor)
    decreases Remaining(table, account, mode, After(cursor))
  {
    PageShrinks(sql, table, account, mode, cursor);
    var page := FetchPage(sql, table, account, mode, cursor).value;
    page.rows + (if page.nextCursor.None? then [] else AllRows(sql, table, account, mode, page.nextCursor))
  }

  /** Rows listed in strictly descending order, followed by rows below the last of them, are in strictly descending order. */
  lemma {:induction false} DescendingAppend(newer: seq<SqlRow>, older: seq<SqlRow>)
    requires Descending(newer) && Descending(older) && newer != []
    requires forall r | r in older :: r.TxActivity? && Before(PositionOf(r), PositionOf(newer[|newer| - 1]))
    ensures Descending(newer + older)
  {
    forall i, j | 0 <= i < j < |newer + older|
      ensures Before(PositionOf((newer + older)[j]), PositionOf((newer + older)[i]))
    {
      if i < |newer| <= j {
        assert older[j - |newer|] in older;
        assert i < |newer| - 1 ==> Before(PositionOf(newer[|newer| - 1]), PositionOf(newer[i]));
      }
    }
  }

  // ----- Paging while the table grows -----

  /** One page: the table it was taken from, where the cursor stood, its rows, and where the cursor it gives stands. */
  datatype Shot = Shot(table: set<SqlRow>, after: Option<Position>, rows: seq<SqlRow>, next: Option<Position>)

  /** The page is the newest part of what its table held below the cursor. */
  ghost predicate IsShot(account: AccountKey, mode: Mode, shot: Shot) {
    var before := Remaining(shot.table, account, mode, shot.after);
    && Descending(shot.rows) && |shot.rows| <= ACCOUNT_PAGE_SIZE
    && (forall r | r in shot.rows :: r in before)
    && match shot.next
       case None => forall r | r in before :: r in shot.rows
       case Some(next) =>
         && shot.rows != [] && next == PositionOf(shot.rows[|shot.rows| - 1])
         && forall r :: r in before <==> r in shot.rows || r in Remaining(shot.table, account, mode, shot.next)
  }

  /** Page `j` gives the cursor of the next one, whose table has kept every row. */
  ghost predicate Continues(shots: seq<Shot>, j: nat)
    requires j + 1 < |shots|
  {
    shots[j].next.Some? && shots[j + 1].after == shots[j].next && shots[j].table <= shots[j + 1].table
  }

  /** Pages fetched one after the other until there is no cursor, each from the table of its own time. */
  ghost predicate IsPaging(account: AccountKey, mode: Mode, shots: seq<Shot>) {
    && shots != [] && shots[|shots| - 1].next.None?
    && (forall j | 0 <= j < |shots| :: IsShot(account, mode, shots[j]))
    && (forall j | 0 <= j < |shots| - 1 :: Continues(shots, j))
  }

  function Listing(shots: seq<Shot>): seq<SqlRow> {
    if shots == [] then [] else shots[0].rows + Listing(shots[1..])
  }

  lemma {:induction false} RestIsPaging(account: AccountKey, mode: Mode, shots: seq<Shot>)
    requires IsPaging(account, mode, shots) && |shots| > 1
    ensures IsPaging(account, mode, shots[1..]) && Continues(shots, 0)
  {
    forall j | 0 <= j < |shots| - 2 ensures Continues(shots[1..], j) {
      assert Continues(shots, j + 1);
    }
  }

  /** A page followed by a listing of rows below its cursor. */
  lemma {:induction false} PageThenRest(account: AccountKey, mode: Mode, shot: Shot, later: set<SqlRow>, listed: seq<SqlRow>)
    requires IsShot(account, mode, shot) && shot.next.Some? && shot.table <= later && Descending(listed)
    requires forall r | r in listed :: Matches(r, account, mode) && Before(PositionOf(r), shot.next.value)
    requires forall r | r in Remaining(later, account, mode, shot.next) :: r in listed
    ensures Descending(shot.rows + listed)
    ensures forall r | r in shot.rows + listed ::
              Matches(r, account, mode) && (shot.after.Some? ==> Before(PositionOf(r), shot.after.value))
    ensures forall r | r in Remaining(shot.table, account, mode, shot.after) :: r in shot.rows + listed
  {
    var last := shot.rows[|shot.rows| - 1];
    assert last in shot.rows;
    DescendingAppend(shot.rows, listed);
    forall r | r in listed ensures shot.after.Some? ==> Before(PositionOf(r), shot.after.value) {
      assert Before(PositionOf(r), PositionOf(last));
    }
    forall r | r in Remaining(shot.table, account, mode, shot.after) ensures r in shot.rows + listed {
      if r !in shot.rows { assert r in Remaining(later, account, mode, shot.next); }
    }
  }

  /** However rows arrive between pages, the listing is in order without repeats and has every row there at the start. */
  lemma {:induction false} PagingListsStart(account: AccountKey, mode: Mode, shots: seq<Shot>)
    requires IsPaging(account, mode, shots)
    ensures Descending(Listing(shots))
    ensures forall r | r in Listing(shots) ::
              Matches(r, account, mode) && (shots[0].after.Some? ==> Before(PositionOf(r), shots[0].after.value))
    ensures forall r | r in Remaining(shots[0].table, account, mode, shots[0].after) :: r in Listing(shots)
    decreases |shots|
  {
    assert IsShot(account, mode, shots[0]);
    if |shots| == 1 {
      assert Listing(shots[1..]) == [];
      assert Listing(shots) == shots[0].rows;
    } else {
      RestIsPaging(account, mode, shots);
      PagingListsStart(account, mode, shots[1..]);
      PageThenRest(account, mode, shots[0], shots[1].table, Listing(shots[1..]));
    }
  }

  /** No row of the account arrives below the cursor between this page and the next. */
  ghost predicate QuietAfter(account: AccountKey, mode: Mode, shots: seq<Shot>, j: nat)
    requires j + 1 < |shots|
  {
    forall r | r in shots[j + 1].table && Matches(r, account, mode) && shots[j].next.Some? && Before(PositionOf(r), shots[j].next.value) ::
      r in shots[j].table
  }

  ghost predicate Quiet(account: AccountKey, mode: Mode, shots: seq<Shot>) {
    forall j | 0 <= j < |shots| - 1 :: QuietAfter(account, mode, shots, j)
  }

  /** The listing holds what was there at the start and nothing else. */
  ghost predicate ListsExactlyStart(account: AccountKey, mode: Mode, shots: seq<Shot>)
    requires shots != []
  {
    forall r :: r in Listing(shots) <==> r in Remaining(shots[0].table, account, mode, shots[0].after)
  }

  lemma {:induction false} QuietSplits(account: AccountKey, mode: Mode, shots: seq<Shot>)
    requires |shots| > 1
    ensures Quiet(account, mode, shots) <==> QuietAfter(account, mode, shots, 0) && Quiet(account, mode, shots[1..])
  {
    if QuietAfter(account, mode, shots, 0) && Quiet(account, mode, shots[1..]) {
      forall j | 0 <= j < |shots| - 1 ensures QuietAfter(account, mode, shots, j) {
        if j > 0 { assert QuietAfter(account, mode, shots[1..], j - 1); }
      }
    }
    if Quiet(account, mode, shots) {
      assert QuietAfter(account, mode, shots, 0);
      forall j | 0 <= j < |shots| - 2 ensures QuietAfter(account, mode, shots[1..], j) {
        assert QuietAfter(account, mode, shots, j + 1);
      }
    }
  }

  /** One page: the whole listing is exact if and only if the rest is and nothing arrived below the cursor. */
  lemma {:induction false} ExactPage(
      account: AccountKey, mode: Mode, shot: Shot, later: set<SqlRow>, listed: seq<SqlRow>, quiet: bool, exact: bool)
    requires IsShot(account, mode, shot) && shot.next.Some? && shot.table <= later
    requires forall r | r in listed :: Matches(r, account, mode) && Before(PositionOf(r), shot.next.value)
    requires forall r | r in Remaining(later, account, mode, shot.next) :: r in listed
    requires quiet <==> forall r | r in later && Matches(r, account, mode) && Before(PositionOf(r), shot.next.value) :: r in shot.table
    requires exact <==> forall r :: r in listed <==> r in Remaining(later, account, mode, shot.next)
    ensures (forall r :: r in shot.rows + listed <==> r in Remaining(shot.table, account, mode, shot.after)) <==> quiet && exact
  {
    var before := Remaining(shot.table, account, mode, shot.after);
    if quiet && exact {
      forall r ensures r in shot.rows + listed <==> r in before {
        assert r in shot.rows + listed <==> r in shot.rows || r in listed;
        assert r in Remaining(later, account, mode, shot.next) <==> r in Remaining(shot.table, account, mode, shot.next);
      }
    } else if !quiet {
      var r :| r in later && Matches(r, account, mode) && Before(PositionOf(r), shot.next.value) && r !in shot.table;
      assert r in Remaining(later, account, mode, shot.next);
      assert r in shot.rows + listed && r !in before;
    } else {
      var r :| r in listed && r !in Remaining(later, account, mode, shot.next);
      assert r !in later;
      assert r in shot.rows + listed && r !in before;
    }
  }

  /** The listing is exactly what was there at the start if and only if no row arrives below a cursor in use. */
  lemma {:induction false} PagingExactIff(account: AccountKey, mode: Mode, shots: seq<Shot>)
    requires IsPaging(account, mode, shots)
    ensures ListsExactlyStart(account, mode, shots) <==> Quiet(account, mode, shots)
    decreases |shots|
  {
    assert IsShot(account, mode, shots[0]);
    if |shots| == 1 {
      assert Listing(shots[1..]) == [];
      assert Listing(shots) == shots[0].rows;
    } else {
      var rest := shots[1..];
      RestIsPaging(account, mode, shots);
      PagingListsStart(account, mode, rest);
      PagingExactIff(account, mode, rest);
      QuietSplits(account, mode, shots);
      ExactPage(account, mode, shots[0], shots[1].table, Listing(rest), QuietAfter(account, mode, shots, 0), ListsExactlyStart(account, mode, rest));
    }
  }

  // ----- Paging a table that does not change -----

  /** A fetched page as a shot of its table. */
  ghost function ShotOf(table: set<SqlRow>, cursor: Option<seq<Byte>>, page: Page): Shot
    requires ValidCursor(cursor) && ValidCursor(page.nextCursor)
  {
    Shot(table, After(cursor), page.rows, After(page.nextCursor))
  }

  lemma {:induction false} PageIsShot(sql: Engine, table: set<SqlRow>, account: AccountKey, mode: Mode, cursor: Option<seq<Byte>>, page: Page)
    requires Serves(sql, table) && ValidCursor(cursor) && FetchPage(sql, table, account, mode, cursor) == Some(page)
    ensures ValidCursor(page.nextCursor) && IsShot(account, mode, ShotOf(table, cursor, page))
  {
    PageSplits(sql, table, account, mode, cursor);
  }

  lemma {:induction false} PageAndRestAreAll(account: AccountKey, mode: Mode, shot: Shot, listed: seq<SqlRow>)
    requires IsShot(account, mode, shot) && shot.next.Some? && Descending(listed)
    requires forall r :: r in listed <==> r in Remaining(shot.table, account, mode, shot.next)
    ensures Descending(shot.rows + listed)
    ensures forall r :: r in shot.rows + listed <==> r in Remaining(shot.table, account, mode, shot.after)
  {
    PageThenRest(account, mode, shot, shot.table, listed);
    ExactPage(account, mode, shot, shot.table, listed, true, true);
  }

  /** Following the cursors lists every remaining row exactly once, newest first: none is lost, none repeats. */
  lemma {:induction false} PagesListEverything(sql: Engine, table: set<SqlRow>, account: AccountKey, mode: Mode, cursor: Option<seq<Byte>>)
    requires Serves(sql, table) && ValidCursor(cursor)
    ensures Descending(AllRows(sql, table, account, mode, cursor))
    ensures forall r :: r in AllRows(sql, table, account, mode, cursor) <==> r in Remaining(table, account, mode, After(cursor))
    decreases Remaining(table, account, mode, After(cursor))
  {
    var page := FetchPage(sql, table, account, mode, cursor).value;
    PageIsShot(sql, table, account, mode, cursor, page);
    PageShrinks(sql, table, account, mode, cursor);
    if page.nextCursor.Some? {
      PagesListEverything(sql, table, account, mode, page.nextCursor);
      PageAndRestAreAll(account, mode, ShotOf(table, cursor, page), AllRows(sql, table, account, mode, page.nextCursor));
    }
  }

  // ----- The pages the explorer fetches -----

  /** The tables the service holds page after page, losing no row, and the service at each of them. */
  ghost predicate ServesGrowing(sqls: nat -> Engine, tables: nat -> set<SqlRow>) {
    (forall k: nat :: Serves(sqls(k), tables(k))) && (forall k: nat :: GrowsAt(tables, k))
  }

  ghost predicate GrowsAt(tables: nat -> set<SqlRow>, k: nat) {
    tables(k) <= tables(k + 1)
  }

  /** The page fetched from table `k` with this cursor. */
  ghost function TakePage(sqls: nat -> Engine, tables: nat -> set<SqlRow>, account: AccountKey, mode: Mode, k: nat, cursor: Option<seq<Byte>>): (r: (Shot, Option<seq<Byte>>))
    requires ServesGrowing(sqls, tables) && ValidCursor(cursor)
    ensures IsShot(account, mode, r.0) && r.0.table == tables(k) && r.0.after == After(cursor)
    ensures ValidCursor(r.1) && r.0.next == After(r.1)
  {
    var page := FetchPage(sqls(k), tables(k), account, mode, cursor).value;
    PageIsShot(sqls(k), tables(k), account, mode, cursor, page);
    (ShotOf(tables(k), cursor, page), page.nextCursor)
  }

  /** A page moves the cursor down. */
  lemma {:induction false} CursorDescends(account: AccountKey, mode: Mode, shot: Shot)
    requires IsShot(account, mode, shot) && shot.next.Some?
    ensures shot.after.Some? ==> Before(shot.next.value, shot.after.value)
  {
    assert shot.rows[|shot.rows| - 1] in shot.rows;
  }

  lemma {:induction false} PrependShot(account: AccountKey, mode: Mode, shot: Shot, rest: seq<Shot>)
    requires IsShot(account, mode, shot) && IsPaging(account, mode, rest)
    requires shot.next.Some? && rest[0].after == shot.next && shot.table <= rest[0].table
    ensures IsPaging(account, mode, [shot] + rest)
  {
    var shots := [shot] + rest;
    forall j | 0 <= j < |shots| ensures IsShot(account, mode, shots[j]) {
      assert j > 0 ==> shots[j] == rest[j - 1];
    }
    forall j | 0 <= j < |shots| - 1 ensures Continues(shots, j) {
      assert shots[j + 1] == rest[j];
      if j > 0 {
        assert shots[j] == rest[j - 1];
        assert Continues(rest, j - 1);
      }
    }
  }

  /** The tables the pages were taken from, in order. */
  ghost predicate TakenFrom(shots: seq<Shot>, tables: nat -> set<SqlRow>, k: nat) {
    forall j | 0 <= j < |shots| :: shots[j].table == tables(k + j)
  }

  lemma {:induction false} PrependTaken(shot: Shot, rest: seq<Shot>, tables: nat -> set<SqlRow>, k: nat)
    requires shot.table == tables(k) && TakenFrom(rest, tables, k + 1)
    ensures TakenFrom([shot] + rest, tables, k)
  {
    forall j | 0 <= j < |[shot] + rest| ensures ([shot] + rest)[j].table == tables(k + j) {
      if j > 0 { assert rest[j - 1].table == tables(k + 1 + (j - 1)); }
    }
  }

  lemma {:induction false} ShotsStep(account: AccountKey, mode: Mode, shot: Shot, rest: seq<Shot>, tables: nat -> set<SqlRow>, k: nat)
    requires IsShot(account, mode, shot) && shot.table == tables(k) && tables(k) <= tables(k + 1) && shot.next.Some?
    requires IsPaging(account, mode, rest) && TakenFrom(rest, tables, k + 1) && rest[0].after == shot.next
    ensures IsPaging(account, mode, [shot] + rest) && TakenFrom([shot] + rest, tables, k)
  {
    assert rest[0].table == tables(k + 1 + 0);
    PrependShot(account, mode, shot, rest);
    PrependTaken(shot, rest, tables, k);
  }

  /** The pages from table `k` on. The cursor only moves down, so paging ends, however fast the table grows. */
  ghost function Shots(sqls: nat -> Engine, tables: nat -> set<SqlRow>, account: AccountKey, mode: Mode, k: nat, cursor: Option<seq<Byte>>): (shots: seq<Shot>)
    requires ServesGrowing(sqls, tables) && ValidCursor(cursor)
    ensures IsPaging(account, mode, shots) && TakenFrom(shots, tables, k) && shots[0].after == After(cursor)
    decreases if cursor.None? then 1 else 0,
              if cursor.None? then 0 else After(cursor).value.height,
              if cursor.None? then 0 else After(cursor).value.index,
              if cursor.None? then 0 else After(cursor).value.role
  {
    var (shot, next) := TakePage(sqls, tables, account, mode, k, cursor);
    assert GrowsAt(tables, k);
    if next.None? then [shot]
    else
      CursorDescends(account, mode, shot);
      var rest := Shots(sqls, tables, account, mode, k + 1, next);
      ShotsStep(account, mode, shot, rest, tables, k);
      [shot] + rest
  }

  lemma {:induction false} RowsOfTheirTables(account: AccountKey, mode: Mode, shots: seq<Shot>, tables: nat -> set<SqlRow>)
    requires IsPaging(account, mode, shots) && TakenFrom(shots, tables, 0)
    ensures forall j | 0 <= j < |shots| :: forall r | r in shots[j].rows :: r in tables(j) && Matches(r, account, mode)
  {
    forall j | 0 <= j < |shots| ensures forall r | r in shots[j].rows :: r in tables(j) && Matches(r, account, mode) {
      assert IsShot(account, mode, shots[j]) && shots[j].table == tables(0 + j);
    }
  }

  lemma {:induction false} StartIsTable(account: AccountKey, mode: Mode, shot: Shot)
    requires shot.after.None?
    ensures forall r :: r in Remaining(shot.table, account, mode, shot.after) <==> r in shot.table && Matches(r, account, mode)
  {
  }

  /**
   * What a reader of the pages can rely on: each page shows rows of the table of its own time, the listing is in order
   * without repeats and has every row there at the start, and it has no other rows exactly if none arrives below a cursor
   * in use.
   */
  ghost predicate ListsReliably(account: AccountKey, mode: Mode, shots: seq<Shot>, tables: nat -> set<SqlRow>) {
    && TakenFrom(shots, tables, 0)
    && (forall j | 0 <= j < |shots| :: forall r | r in shots[j].rows :: r in tables(j) && Matches(r, account, mode))
    && Descending(Listing(shots))
    && (forall r | r in tables(0) && Matches(r, account, mode) :: r in Listing(shots))
    && ((forall r :: r in Listing(shots) <==> r in tables(0) && Matches(r, account, mode)) <==> Quiet(account, mode, shots))
  }

  lemma {:induction false} PagingIsReliable(account: AccountKey, mode: Mode, shots: seq<Shot>, tables: nat -> set<SqlRow>)
    requires IsPaging(account, mode, shots) && TakenFrom(shots, tables, 0) && shots[0].after.None?
    ensures ListsReliably(account, mode, shots, tables)
  {
    assert shots[0].table == tables(0 + 0);
    PagingListsStart(account, mode, shots);
    PagingExactIff(account, mode, shots);
    RowsOfTheirTables(account, mode, shots, tables);
    StartIsTable(account, mode, shots[0]);
  }

  /** Following the cursors over a table that keeps growing, wherever the new rows lie, ends and lists reliably. */
  lemma {:induction false} PagingWhileGrowing(sqls: nat -> Engine, tables: nat -> set<SqlRow>, account: AccountKey, mode: Mode)
    requires ServesGrowing(sqls, tables)
    ensures var shots := Shots(sqls, tables, account, mode, 0, None);
            IsPaging(account, mode, shots) && ListsReliably(account, mode, shots, tables)
  {
    PagingIsReliable(account, mode, Shots(sqls, tables, account, mode, 0, None), tables);
  }

  // ----- A row that arrives late -----

  lemma {:induction false} FewInSeq(xs: seq<SqlRow>, rows: set<SqlRow>)
    requires forall r | r in rows :: r in xs
    ensures |rows| <= |xs|
    decreases |xs|
  {
    if xs == [] {
      assert forall r | r in rows :: r in xs;
      assert rows == {};
    } else {
      var n := |xs| - 1;
      FewInSeq(xs[..n], rows - {xs[n]});
    }
  }

  /**
   * A table with more rows of the account than fit a page gets one below all of them after the first page. The listing
   * then holds a row that was not there at the start.
   */
  lemma {:induction false} LateRowIsListed(
      sqls: nat -> Engine, tables: nat -> set<SqlRow>, account: AccountKey, mode: Mode, late: SqlRow)
    requires ServesGrowing(sqls, tables) && late in tables(1) && late !in tables(0) && Matches(late, account, mode)
    requires forall r | r in tables(0) && Matches(r, account, mode) :: Before(PositionOf(late), PositionOf(r))
    requires |Remaining(tables(0), account, mode, None)| > ACCOUNT_PAGE_SIZE
    ensures late in Listing(Shots(sqls, tables, account, mode, 0, None))
  {
    PagingWhileGrowing(sqls, tables, account, mode);
    LateRowDisturbs(account, mode, Shots(sqls, tables, account, mode, 0, None), tables, late);
  }

  lemma {:induction false} LateRowDisturbs(account: AccountKey, mode: Mode, shots: seq<Shot>, tables: nat -> set<SqlRow>, late: SqlRow)
    requires IsPaging(account, mode, shots) && TakenFrom(shots, tables, 0) && shots[0].after.None?
    requires late in tables(1) && Matches(late, account, mode)
    requires forall r | r in tables(0) && Matches(r, account, mode) :: Before(PositionOf(late), PositionOf(r))
    requires |Remaining(tables(0), account, mode, None)| > ACCOUNT_PAGE_SIZE
    ensures late in Listing(shots)
  {
    var shot := shots[0];
    assert IsShot(account, mode, shot) && shot.table == tables(0 + 0);
    if shot.next.None? { FewInSeq(shot.rows, Remaining(tables(0), account, mode, None)); }
    assert shot.rows[|shot.rows| - 1] in shot.rows;
    RestIsPaging(account, mode, shots);
    assert shots[1].table == tables(0 + 1);
    PagingListsStart(account, mode, shots[1..]);
    assert late in Remaining(shots[1].table, account, mode, shots[1].after);
  }

  /** The account's rows at heights `4..4 + n`. */
  function Ladder(account: AccountKey, n: nat): set<SqlRow> {
    if n == 0 then {} else Ladder(account, n - 1) + {Rung(account, n + 3)}
  }

  function Rung(account: AccountKey, height: nat): SqlRow {
    TxActivity(account, Sender, height, 0, [], account, 1, height)
  }

  lemma {:induction false} LadderRows(account: AccountKey, n: nat)
    ensures |Ladder(account, n)| == n
    ensures forall r | r in Ladder(account, n) :: r.TxActivity? && 4 <= r.blockHeight < n + 4 && r == Rung(account, r.blockHeight)
  {
    if n > 0 { LadderRows(account, n - 1); }
  }

  /** Eleven rows at heights 4 to 14 are there at the start, and the row of height 1 lands after the first page. */
  lemma {:induction false} LateRowRun(sqls: nat -> Engine, account: AccountKey)
    requires ServesGrowing(sqls, k => if k == 0 then Ladder(account, 11) else Ladder(account, 11) + {Rung(account, 1)})
    ensures var tables: nat -> set<SqlRow> := k => if k == 0 then Ladder(account, 11) else Ladder(account, 11) + {Rung(account, 1)};
            Rung(account, 1) !in tables(0) && Rung(account, 1) in Listing(Shots(sqls, tables, account, All, 0, None))
  {
    var tables: nat -> set<SqlRow> := k => if k == 0 then Ladder(account, 11) else Ladder(account, 11) + {Rung(account, 1)};
    LadderRows(account, 11);
    assert Remaining(tables(0), account, All, None) == Ladder(account, 11);
    LateRowIsListed(sqls, tables, account, All, Rung(account, 1));
  }

  // ----- Services exist -----

  /** Some answer to a query, if there is one. */
  ghost function AnswerTo(remaining: set<SqlRow>): seq<SqlRow> {
    if exists rows :: Answers(remaining, rows) then var rows :| Answers(remaining, rows); rows else []
  }

  /** Every table of rows at `u64` positions, with different positions for each account, can be served. */
  lemma {:induction false} ServiceExists(table: set<SqlRow>) returns (sql: Engine)
    requires forall r | r in table && r.TxActivity? :: PositionOf(r).FitsU64()
    requires forall r, s | r in table && s in table && r.TxActivity? && s.TxActivity? && r.account == s.account && PositionOf(r) == PositionOf(s) :: r == s
    ensures Serves(sql, table)
  {
    sql := (account, mode, after) => AnswerTo(Remaining(table, account, mode, after));
    forall account, mode, after ensures Answers(Remaining(table, account, mode, after), sql(account, mode, after)) {
      var rows := AnswerExists(Remaining(table, account, mode, after));
    }
  }

  // ----- The table an accepted chain fills -----

  /** The activity row of a transaction for one of its two roles. */
  function ActivityRow(height: nat, ix: IndexedTransaction, role: Role): SqlRow {
    if role == Sender then TxActivity(ix.sender, Sender, height, ix.blockIndex, ix.digest, ix.to, ix.value, ix.nonce)
    else TxActivity(ix.to, Receiver, height, ix.blockIndex, ix.digest, ix.sender, ix.value, ix.nonce)
  }

  lemma {:induction false} ActivityRowOfBody(height: nat, start: nat, ixs: seq<IndexedTransaction>, k: nat, row: SqlRow) returns (t: nat)
    requires k <= |ixs| && row in BodyRows(height, start, ixs, k) && row.TxActivity?
    ensures t < k && row == ActivityRow(height, ixs[t], row.role)
  {
    if row in TransactionRows(height, start + (k - 1), ixs[k - 1]) {
      t := k - 1;
    } else {
      t := ActivityRowOfBody(height, start, ixs, k - 1, row);
    }
  }

  lemma {:induction false} ActivityRowPlaced(height: nat, start: nat, ixs: seq<IndexedTransaction>, row: SqlRow)
    requires forall t | 0 <= t < |ixs| :: ixs[t].blockIndex == t
    requires row in BodyRows(height, start, ixs, |ixs|) && row.TxActivity?
    ensures row.blockHeight == height && row.index < |ixs| && row == ActivityRow(height, ixs[row.index], row.role)
  {
    var t := ActivityRowOfBody(height, start, ixs, |ixs|, row);
  }

  /** In an accepted body the recorded index is the place in the body. */
  lemma {:induction false} BlockIndexIsPlace(env: Env, body: seq<seq<Byte>>, t: nat)
    requires PrepareBody(env, body).Some? && t < |IndexBody(env, body)|
    ensures IndexBody(env, body)[t].blockIndex == t
  {
    NothingSkipped(env, body);
    SomesBound(Entries(env, body));
    IndexAgreesWithPrepare(env, t, body[t]);
  }

  lemma {:induction false} BlockIndexesArePlaces(env: Env, body: seq<seq<Byte>>)
    requires PrepareBody(env, body).Some?
    ensures forall t | 0 <= t < |IndexBody(env, body)| :: IndexBody(env, body)[t].blockIndex == t
  {
    forall t | 0 <= t < |IndexBody(env, body)| ensures IndexBody(env, body)[t].blockIndex == t {
      BlockIndexIsPlace(env, body, t);
    }
  }

  lemma {:induction false} PlacedInBlock(env: Env, block: Block, ts: int, row: SqlRow, ixs: seq<IndexedTransaction>)
    requires ixs == IndexBody(env, block.body) && forall t | 0 <= t < |ixs| :: ixs[t].blockIndex == t
    requires row in BlockRows(env, block, ts) && row.TxActivity?
    ensures row.blockHeight == block.header.height && row.index < |ixs|
    ensures row == ActivityRow(block.header.height, ixs[row.index], row.role)
  {
    var start := block.header.transactionsEnd - (|ixs| + 1);
    assert row in BodyRows(block.header.height, start, ixs, |ixs|);
    ActivityRowPlaced(block.header.height, start, ixs, row);
  }

  /** An activity row of an accepted block is determined by its height, index and role. */
  lemma {:induction false} ActivityRowOfBlock(env: Env, block: Block, ts: int, row: SqlRow)
    requires PrepareBody(env, block.body).Some?
    requires row in BlockRows(env, block, ts) && row.TxActivity?
    ensures row.blockHeight == block.header.height && row.index < |IndexBody(env, block.body)|
    ensures row == ActivityRow(block.header.height, IndexBody(env, block.body)[row.index], row.role)
  {
    BlockIndexesArePlaces(env, block.body);
    PlacedInBlock(env, block, ts, row, IndexBody(env, block.body));
  }

  /** Along an accepted chain no two different activity rows stand at the same position, so the order of a listing is total. */
  lemma {:induction false} ChainPositionsUnique(
      env: Env, db: Database, blocks: seq<Block>, i: nat, j: nat, ts: int, us: int, r: SqlRow, s: SqlRow)
    requires ValidChain(env, db, blocks) && i < |blocks| && j < |blocks|
    requires r in BlockRows(env, blocks[i], ts) && s in BlockRows(env, blocks[j], us)
    requires r.TxActivity? && s.TxActivity? && PositionOf(r) == PositionOf(s)
    ensures r == s
  {
    ValidChainIsRanged(env, db, blocks);
    HeightIsIndex(blocks, ChainDigests(env, blocks), i);
    HeightIsIndex(blocks, ChainDigests(env, blocks), j);
    ActivityRowOfBlock(env, blocks[i], ts, r);
    ActivityRowOfBlock(env, blocks[j], us, s);
  }

  /** Activity rows at pairwise different positions. */
  ghost predicate Keyed(rows: set<SqlRow>) {
    && (forall r | r in rows :: r.TxActivity?)
    && (forall r, s | r in rows && s in rows && PositionOf(r) == PositionOf(s) :: r == s)
  }

  lemma {:induction false} NewestExists(rows: set<SqlRow>) returns (top: SqlRow)
    requires Keyed(rows) && rows != {}
    ensures top in rows && forall r | r in rows && r != top :: Before(PositionOf(r), PositionOf(top))
  {
    var one :| one in rows;
    top := one;
    if rows != {one} {
      var rest := rows - {one};
      var best := NewestExists(rest);
      if Before(PositionOf(one), PositionOf(best)) { top := best; }
    }
  }

  /** Every keyed set of rows has a listing in descending order. */
  lemma {:induction false} ListingExists(rows: set<SqlRow>) returns (listing: seq<SqlRow>)
    requires Keyed(rows)
    ensures Descending(listing) && forall r :: r in listing <==> r in rows
  {
    if rows == {} {
      return [];
    }
    var top := NewestExists(rows);
    var rest := ListingExists(rows - {top});
    DescendingAppend([top], rest);
    listing := [top] + rest;
  }

  /** So every keyed table has an answer to every query. */
  lemma {:induction false} AnswerExists(remaining: set<SqlRow>) returns (rows: seq<SqlRow>)
    requires Keyed(remaining)
    ensures Answers(remaining, rows)
  {
    var listing := ListingExists(remaining);
    var limit := ACCOUNT_PAGE_SIZE + 1;
    rows := if |listing| <= limit then listing else listing[..limit];
    forall r | r in remaining
      ensures r in rows || (|rows| == limit && r.TxActivity? && Before(PositionOf(r), PositionOf(rows[ACCOUNT_PAGE_SIZE])))
    {
      var i :| 0 <= i < |listing| && listing[i] == r;
      if i < limit { assert i < |rows| && rows[i] == r; }
    }
  }
}
