/**
 * The client page that lists one client's monthly invoices
 * (clientInvoices/InvoiceManager.tsx): turning the server's `YYYYMM` keys into
 * month and year labels, the newest-first ordering, the earnings total, the
 * duplicate check that guards invoice creation, the delete target and the
 * list of selectable years.
 */
module ClientInvoices {
  import opened Wrappers
  import opened JsText

  /** One invoice as the server lists it; `month` is the raw `YYYYMM` key, `None` an amount that is not a number. */
  datatype RawInvoice = RawInvoice(month: string, status: string, totalAmount: Option<int>)

  /** One invoice as the page keeps it. */
  datatype Invoice = Invoice(id: nat, internalId: string, month: string, year: string,
                             status: string, totalAmount: Option<int>)

  datatype MonthYear = MonthYear(month: string, year: string)

  /** The year shown for a key that is not six characters long. */
  const FallbackYear: string := "2025"

  /**
   * The month and year labels of a raw key: a six-character key gives its first
   * four characters as the year and, when its last two parse to 1..12, the month
   * name; anything else keeps the raw key as the month.
   */
  function InvoiceMonthYear(raw: string): (r: MonthYear)
    ensures |raw| != 6 ==> r == MonthYear(raw, FallbackYear)
    ensures |raw| == 6 ==> r.year == raw[..4]
    ensures r.month == raw || r.month in MonthNames
  {
    if |raw| == 6 then
      var m := ParseInt(raw[4..6]);
      MonthYear(if m.Some? && 1 <= m.value <= 12 then MonthNames[m.value - 1] else raw, raw[..4])
    else
      MonthYear(raw, FallbackYear)
  }

  /** A well-formed key `YYYY` + `MM` shows as the month's name and `YYYY`. */
  lemma CanonicalKeyLabels(year: string, m: nat)
    requires |year| == 4 && 1 <= m <= 12
    ensures InvoiceMonthYear(year + TwoDigits(m)) == MonthYear(MonthNames[m - 1], year)
  {
    var key := year + TwoDigits(m);
    assert key[4..6] == TwoDigits(m) && key[..4] == year;
    ParseTwoDigits(m);
  }

  /** A six-character key whose month part does not parse to 1..12 keeps the raw key as month. */
  lemma OutOfRangeKeepsKey(raw: string)
    requires |raw| == 6
    requires var m := ParseInt(raw[4..6]); !(m.Some? && 1 <= m.value <= 12)
    ensures InvoiceMonthYear(raw) == MonthYear(raw, raw[..4])
  {
  }

  function MapInvoice(raw: RawInvoice, index: nat): Invoice {
    var labels := InvoiceMonthYear(raw.month);
    Invoice(index, raw.month, labels.month, labels.year, raw.status, raw.totalAmount)
  }

  /** The page's invoices: the `id` of each is its position, `internalId` its raw key. */
  function MapInvoices(raws: seq<RawInvoice>): (r: seq<Invoice>)
    ensures |r| == |raws|
    ensures forall i :: 0 <= i < |r| ==> r[i].id == i && r[i].internalId == raws[i].month
    ensures forall i :: 0 <= i < |r| ==>
      MonthYear(r[i].month, r[i].year) == InvoiceMonthYear(raws[i].month) &&
      r[i].status == raws[i].status && r[i].totalAmount == raws[i].totalAmount
    ensures forall i, j :: 0 <= i < j < |r| ==> r[i].id != r[j].id
  {
    seq(|raws|, i requires 0 <= i < |raws| => MapInvoice(raws[i], i))
  }

  // ---------------------------------------------------------------- ordering

  /**
   * The comparator of `sortInvoices`: later years first, then later months;
   * `None` is the `NaN` it yields when a year does not parse or a month name is unknown.
   */
  function Compare(a: Invoice, b: Invoice): (r: Option<int>)
    ensures r.None? <==>
      || ParseInt(a.year).None? || ParseInt(b.year).None?
      || (ParseInt(a.year) == ParseInt(b.year) && (MonthIndex(a.month).None? || MonthIndex(b.month).None?))
  {
    CompareKeys(ParseInt(a.year), ParseInt(b.year), MonthIndex(a.month), MonthIndex(b.month))
  }

  /** The comparator on the parsed years and month positions: `yb - ya`, then `mb - ma`, with `NaN` spreading. */
  function CompareKeys(ya: Option<int>, yb: Option<int>, ma: Option<nat>, mb: Option<nat>): Option<int> {
    if ya.None? || yb.None? then None
    else if yb.value - ya.value != 0 then Some(yb.value - ya.value)
    else if ma.None? || mb.None? then None
    else Some(mb.value - ma.value)
  }

  /** `Array.prototype.sort` reads a `NaN` comparison as `+0`. */
  function SortCompare(a: Invoice, b: Invoice): int {
    var c := Compare(a, b);
    if c.None? then 0 else c.value
  }

  /** Swapping the two invoices flips the comparator's sign, and a `NaN` stays a `NaN`. */
  lemma CompareAntisymmetric(a: Invoice, b: Invoice)
    ensures Compare(b, a) == if Compare(a, b).None? then None else Some(-Compare(a, b).value)
    ensures SortCompare(b, a) == -SortCompare(a, b)
  {
    var ya, yb := ParseInt(a.year), ParseInt(b.year);
    var ma, mb := MonthIndex(a.month), MonthIndex(b.month);
    assert Compare(a, b) == CompareKeys(ya, yb, ma, mb);
    assert Compare(b, a) == CompareKeys(yb, ya, mb, ma);
    CompareKeysAntisymmetric(ya, yb, ma, mb);
  }

  /** The comparator says "same place" exactly when both invoices have the same parsed year and the same known month. */
  lemma CompareZeroIffSamePeriod(a: Invoice, b: Invoice)
    ensures Compare(a, b) == Some(0) <==>
      && ParseInt(a.year).Some? && ParseInt(a.year) == ParseInt(b.year)
      && MonthIndex(a.month).Some? && MonthIndex(a.month) == MonthIndex(b.month)
  {
  }

  /** Swapping both the years and the months negates the comparison; `NaN` stays `NaN`. */
  lemma CompareKeysAntisymmetric(ya: Option<int>, yb: Option<int>, ma: Option<nat>, mb: Option<nat>)
    ensures CompareKeys(yb, ya, mb, ma) == if CompareKeys(ya, yb, ma, mb).None? then None else Some(-CompareKeys(ya, yb, ma, mb).value)
  {
  }

  /** Places `x`, which came before every element of `s`, ahead of the first element it does not sort after. */
  function Insert(x: Invoice, s: seq<Invoice>): (r: seq<Invoice>)
    ensures multiset(r) == multiset(s) + multiset{x}
    ensures |r| == |s| + 1
  {
    if s == [] then [x]
    else if SortCompare(x, s[0]) <= 0 then [x] + s
    else
      assert s == [s[0]] + s[1..];
      [s[0]] + Insert(x, s[1..])
  }

  /** `[...list].sort(cmp)`: a stable sort of a copy, so the list itself is left as it was. */
  function SortInvoices(list: seq<Invoice>): (r: seq<Invoice>)
    ensures multiset(r) == multiset(list)
    ensures |r| == |list|
  {
    if list == [] then []
    else
      assert list == [list[0]] + list[1..];
      Insert(list[0], SortInvoices(list[1..]))
  }

  /** The invoice's year parses and its month is one of the twelve names. */
  predicate Keyed(inv: Invoice) {
    ParseInt(inv.year).Some? && MonthIndex(inv.month).Some?
  }

  /** `a` is not older than `b`: a later year, or the same year and a month no earlier. */
  predicate NotOlder(a: Invoice, b: Invoice) {
    && Keyed(a) && Keyed(b)
    && var ya, yb := ParseInt(a.year).value, ParseInt(b.year).value;
       ya > yb || (ya == yb && MonthIndex(a.month).value >= MonthIndex(b.month).value)
  }

  predicate NewestFirst(s: seq<Invoice>) {
    forall i, j :: 0 <= i < j < |s| ==> NotOlder(s[i], s[j])
  }

  predicate AllKeyed(s: seq<Invoice>) {
    forall i :: 0 <= i < |s| ==> Keyed(s[i])
  }

  lemma CompareOrders(a: Invoice, b: Invoice)
    requires Keyed(a) && Keyed(b)
    ensures SortCompare(a, b) <= 0 <==> NotOlder(a, b)
    ensures SortCompare(a, b) > 0 ==> NotOlder(b, a)
  {
  }

  lemma NotOlderTransitive(a: Invoice, b: Invoice, c: Invoice)
    requires NotOlder(a, b) && NotOlder(b, c)
    ensures NotOlder(a, c)
  {
  }

  /** An invoice not older than every element of `s` and than `x` is not older than anything in `Insert(x, s)`. */
  lemma NotOlderThanInsert(h: Invoice, x: Invoice, s: seq<Invoice>)
    requires NotOlder(h, x)
    requires forall k :: 0 <= k < |s| ==> NotOlder(h, s[k])
    ensures forall j :: 0 <= j < |Insert(x, s)| ==> NotOlder(h, Insert(x, s)[j])
  {
    var r := Insert(x, s);
    forall j | 0 <= j < |r| ensures NotOlder(h, r[j]) {
      assert r[j] in multiset(r);
      if r[j] != x {
        assert r[j] in multiset(s);
      }
    }
  }

  lemma {:induction false} InsertNewestFirst(x: Invoice, s: seq<Invoice>)
    requires Keyed(x) && AllKeyed(s) && NewestFirst(s)
    ensures NewestFirst(Insert(x, s))
  {
    if s == [] {
    } else if SortCompare(x, s[0]) <= 0 {
      CompareOrders(x, s[0]);
      var r := [x] + s;
      forall i, j | 0 <= i < j < |r| ensures NotOlder(r[i], r[j]) {
        if i == 0 && j > 1 {
          NotOlderTransitive(x, s[0], s[j - 1]);
        }
      }
    } else {
      CompareOrders(x, s[0]);
      var t := s[1..];
      assert AllKeyed(t) && NewestFirst(t);
      InsertNewestFirst(x, t);
      NotOlderThanInsert(s[0], x, t);
      var rest := Insert(x, t);
      assert Insert(x, s) == [s[0]] + rest;
    }
  }

  /** When every year parses and every month is known, the sorted list runs newest first. */
  lemma {:induction false} SortedNewestFirst(list: seq<Invoice>)
    requires AllKeyed(list)
    ensures NewestFirst(SortInvoices(list))
  {
    if list != [] {
      assert AllKeyed(list[1..]);
      SortedNewestFirst(list[1..]);
      var sorted := SortInvoices(list[1..]);
      forall i | 0 <= i < |sorted| ensures Keyed(sorted[i]) {
        assert sorted[i] in multiset(list[1..]);
      }
      InsertNewestFirst(list[0], sorted);
    }
  }

  // ---------------------------------------------------------------- totals

  /** `Number(inv.totalAmount) || 0`. */
  function Earning(inv: Invoice): int {
    inv.totalAmount.GetOr(0)
  }

  /** `invoices.reduce((sum, inv) => sum + (Number(inv.totalAmount) || 0), 0)`. */
  function TotalEarnings(invoices: seq<Invoice>): (r: int)
    ensures invoices == [] ==> r == 0
    ensures (forall i :: 0 <= i < |invoices| ==> Earning(invoices[i]) >= 0) ==> r >= 0
  {
    if invoices == [] then 0
    else TotalEarnings(invoices[..|invoices| - 1]) + Earning(invoices[|invoices| - 1])
  }

  /** The total of two lists laid end to end is the sum of their totals. */
  lemma {:induction false} TotalEarningsAppend(a: seq<Invoice>, b: seq<Invoice>)
    ensures TotalEarnings(a + b) == TotalEarnings(a) + TotalEarnings(b)
  {
    if b != [] {
      var ab := a + b;
      assert ab[..|ab| - 1] == a + b[..|b| - 1];
      assert ab[|ab| - 1] == b[|b| - 1];
      TotalEarningsAppend(a, b[..|b| - 1]);
    } else {
      assert a + b == a;
    }
  }

  lemma {:induction false} TotalEarningsInsert(x: Invoice, s: seq<Invoice>)
    ensures TotalEarnings(Insert(x, s)) == Earning(x) + TotalEarnings(s)
  {
    assert TotalEarnings([x]) == Earning(x) by {
      assert [x][..0] == [];
    }
    if s == [] {
    } else if SortCompare(x, s[0]) <= 0 {
      TotalEarningsAppend([x], s);
    } else {
      TotalEarningsInsert(x, s[1..]);
      TotalEarningsAppend([s[0]], Insert(x, s[1..]));
      TotalEarningsAppend([s[0]], s[1..]);
      assert [s[0]] + s[1..] == s;
    }
  }

  /** The newest-first view adds up to the same earnings as the list it sorts. */
  lemma {:induction false} SortKeepsEarnings(list: seq<Invoice>)
    ensures TotalEarnings(SortInvoices(list)) == TotalEarnings(list)
  {
    if list != [] {
      SortKeepsEarnings(list[1..]);
      TotalEarningsInsert(list[0], SortInvoices(list[1..]));
      TotalEarningsAppend([list[0]], list[1..]);
      assert [list[0]] + list[1..] == list;
      assert TotalEarnings([list[0]]) == Earning(list[0]) by {
        assert [list[0]][..0] == [];
      }
    }
  }

  // ---------------------------------------------------------------- creating

  /** `invoices.some(inv => inv.month === month && inv.year === year)`. */
  function HasInvoiceFor(invoices: seq<Invoice>, month: string, year: string): (b: bool)
    ensures b <==> exists i :: 0 <= i < |invoices| && invoices[i].month == month && invoices[i].year == year
  {
    |invoices| > 0 &&
    ((invoices[0].month == month && invoices[0].year == year) || HasInvoiceFor(invoices[1..], month, year))
  }

  /** What the server answers to a new invoice: `ok`, status 409, another status, or a failed request. */
  datatype CreateResponse = Created | Conflict | Rejected | NetworkError

  datatype NewInvoiceRequest = NewInvoiceRequest(clientId: string, month: string, year: string, status: string)

  /** The effect of saving the new-invoice form: the request sent, if any, the two dialogs and whether the list is fetched again. */
  datatype SaveResult = SaveResult(sent: Option<NewInvoiceRequest>, newModalOpen: bool,
                                   duplicateModalOpen: bool, refetch: bool)

  /**
   * `handleSaveInvoice`: an invoice already listed for the selected month and
   * year opens the duplicate dialog and sends nothing; a missing client id sends
   * nothing; otherwise the request is sent and the answer decides the dialogs.
   */
  function SaveInvoice(invoices: seq<Invoice>, month: string, year: string, status: string,
                       clientId: Option<string>, newModalOpen: bool, duplicateModalOpen: bool,
                       response: CreateResponse): (r: SaveResult)
    ensures HasInvoiceFor(invoices, month, year) ==> r == SaveResult(None, newModalOpen, true, false)
    ensures r.sent.Some? <==> !HasInvoiceFor(invoices, month, year) && Present(clientId)
    ensures r.sent.Some? ==> r.sent.value == NewInvoiceRequest(clientId.value, month, year, status)
    ensures r.refetch <==> r.sent.Some? && response == Created
    ensures r.newModalOpen <==> newModalOpen && !r.refetch
    ensures r.duplicateModalOpen <==>
      duplicateModalOpen || HasInvoiceFor(invoices, month, year) || (r.sent.Some? && response == Conflict)
  {
    if exists i :: 0 <= i < |invoices| && invoices[i].month == month && invoices[i].year == year then
      SaveResult(None, newModalOpen, true, false)
    else if clientId.None? || clientId.value == "" then
      SaveResult(None, newModalOpen, duplicateModalOpen, false)
    else
      var request := NewInvoiceRequest(clientId.value, month, year, status);
      match response
      case Created => SaveResult(Some(request), false, duplicateModalOpen, true)
      case Conflict => SaveResult(Some(request), newModalOpen, true, false)
      case _ => SaveResult(Some(request), newModalOpen, duplicateModalOpen, false)
  }

  // ---------------------------------------------------------------- deleting

  /** `invoices.find(inv => inv.id === id)`: the position of the first invoice with that id. */
  function FindById(invoices: seq<Invoice>, id: Option<int>): (r: Option<nat>)
    ensures r.Some? ==> r.value < |invoices| && id == Some(invoices[r.value].id as int)
    ensures r.Some? ==> forall k :: 0 <= k < r.value ==> id != Some(invoices[k].id as int)
    ensures r.None? ==> forall k :: 0 <= k < |invoices| ==> id != Some(invoices[k].id as int)
  {
    if invoices == [] then None
    else if id == Some(invoices[0].id as int) then Some(0)
    else
      var k := FindById(invoices[1..], id);
      if k.Some? then Some(k.value + 1) else None
  }

  datatype DeleteRequest = DeleteRequest(clientId: string, invoiceMonth: string)

  /**
   * `executeDelete`: the request for the pending invoice. Nothing is requested
   * when no invoice has the pending id, the client id is missing or empty, or the
   * invoice's raw key is empty.
   */
  function DeleteTarget(invoices: seq<Invoice>, pending: Option<int>, clientId: Option<string>): (r: Option<DeleteRequest>)
    ensures r.Some? <==>
      && FindById(invoices, pending).Some? && Present(clientId)
      && invoices[FindById(invoices, pending).value].internalId != ""
    ensures r.Some? ==>
      && r.value.clientId == clientId.value
      && r.value.invoiceMonth == invoices[FindById(invoices, pending).value].internalId
  {
    var k := FindById(invoices, pending);
    if k.Some? && Present(clientId) && invoices[k.value].internalId != "" then
      Some(DeleteRequest(clientId.value, invoices[k.value].internalId))
    else None
  }

  /** Because ids are positions, deleting invoice `k` of a fetched list targets the `k`-th raw key. */
  lemma DeleteTargetsRawKey(raws: seq<RawInvoice>, k: nat, clientId: string)
    requires k < |raws| && raws[k].month != "" && clientId != ""
    ensures DeleteTarget(MapInvoices(raws), Some(k), Some(clientId)) == Some(DeleteRequest(clientId, raws[k].month))
  {
    var invoices := MapInvoices(raws);
    var f := FindById(invoices, Some(k));
    assert invoices[k].id == k;
  }

  // ---------------------------------------------------------------- years

  /** The years offered in the form: five before `currentYear` to five after, ascending. */
  method YearList(currentYear: int) returns (years: seq<int>)
    ensures |years| == 11
    ensures forall k :: 0 <= k < |years| ==> years[k] == currentYear - 5 + k
  {
    years := [];
    var i := currentYear - 5;
    while i <= currentYear + 5
      invariant currentYear - 5 <= i <= currentYear + 6
      invariant |years| == i - (currentYear - 5)
      invariant forall k :: 0 <= k < |years| ==> years[k] == currentYear - 5 + k
    {
      years := years + [i];
      i := i + 1;
    }
  }
}
