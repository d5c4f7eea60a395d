/**
 * The page of one invoice month (invoice/InvoiceManager.tsx): the month and
 * year read from the `YYYYMM` parameter, the total, the "N Banner & M Poster"
 * scope line, and the local edits of the project list (edit in place,
 * prepend, delete).
 */
module InvoicePage {
  import opened Wrappers
  import opened JsText
  import opened Projects
  import ClientInvoices

  // ---------------------------------------------------------------- header labels

  datatype InvoiceMeta = InvoiceMeta(month: string, year: string, status: string)

  /**
   * The labels of the `month` parameter: the year is its first four characters
   * (fewer when it is shorter); the month is the name of characters 5-6 when they
   * parse to 1..12, and the parameter itself otherwise. A missing or empty
   * payment status reads as "Pending".
   */
  function ReadInvoiceMeta(monthParam: string, paymentStatus: Option<string>): (r: InvoiceMeta)
    ensures |monthParam| >= 4 ==> r.year == monthParam[..4]
    ensures |monthParam| < 4 ==> r.year == monthParam
    ensures |monthParam| <= 4 ==> r.month == monthParam
    ensures r.month == monthParam || r.month in MonthNames
    ensures r.status == (if paymentStatus.None? || paymentStatus.value == "" then "Pending" else paymentStatus.value)
  {
    var year := Substring(monthParam, 0, 4);
    var m := ParseInt(Substring(monthParam, 4, 6));
    var month := if m.Some? && 1 <= m.value <= 12 then MonthNames[m.value - 1] else monthParam;
    var status := if paymentStatus.None? || paymentStatus.value == "" then "Pending" else paymentStatus.value;
    InvoiceMeta(month, year, status)
  }

  /**
   * A parameter that starts with four year characters and a month 01..12 shows
   * that month and year, whatever follows: unlike the client page, the invoice
   * page does not check the length.
   */
  lemma KeyLabelsWithAnyTail(year: string, m: nat, rest: string, paymentStatus: Option<string>)
    requires |year| == 4 && 1 <= m <= 12
    ensures var meta := ReadInvoiceMeta(year + TwoDigits(m) + rest, paymentStatus);
            meta.month == MonthNames[m - 1] && meta.year == year
  {
    var key := year + TwoDigits(m) + rest;
    assert Substring(key, 4, 6) == TwoDigits(m);
    assert Substring(key, 0, 4) == year;
    ParseTwoDigits(m);
  }

  /**
   * The month label for a parameter of any length: the name of the month that
   * characters 5-6 parse to when it is 1..12, and the whole parameter otherwise.
   */
  lemma MonthLabelRule(monthParam: string, paymentStatus: Option<string>)
    ensures var m := ParseInt(Substring(monthParam, 4, 6));
            var month := ReadInvoiceMeta(monthParam, paymentStatus).month;
            && (m.Some? && 1 <= m.value <= 12 ==> month == MonthNames[m.value - 1])
            && (!(m.Some? && 1 <= m.value <= 12) ==> month == monthParam)
  {
  }

  /** A five-character parameter still names a month: `substring(4, 6)` of "20251" is "1". */
  lemma FiveCharacterKeyLabels()
    ensures ReadInvoiceMeta("20251", None).month == "January"
  {
    assert Substring("20251", 4, 6) == "1";
    assert ParseInt("1") == Some(1) by {
      assert DigitPrefix("1") == "1";
    }
  }

  /** For a seven-character key the two pages disagree: the client page keeps the raw key as month, the invoice page names it. */
  lemma SevenCharacterKeyLabels()
    ensures ReadInvoiceMeta("2025011", None).month == "January"
    ensures ClientInvoices.InvoiceMonthYear("2025011") == ClientInvoices.MonthYear("2025011", "2025")
  {
    assert "2025011" == "2025" + TwoDigits(1) + "1";
    KeyLabelsWithAnyTail("2025", 1, "1", None);
  }

  /**
   * For a six-character key the invoice page shows the same month and year as
   * the card that linked to it on the client page.
   */
  lemma SameLabelsAsClientPage(key: string, paymentStatus: Option<string>)
    requires |key| == 6
    ensures var meta := ReadInvoiceMeta(key, paymentStatus);
            ClientInvoices.InvoiceMonthYear(key) == ClientInvoices.MonthYear(meta.month, meta.year)
  {
    assert Substring(key, 4, 6) == key[4..6];
  }

  /** Opening the `k`-th card of the client page, whose link carries its raw key, shows that card's labels. */
  lemma CardLinkShowsCardLabels(raws: seq<ClientInvoices.RawInvoice>, k: nat, paymentStatus: Option<string>)
    requires k < |raws| && |raws[k].month| == 6
    ensures var card := ClientInvoices.MapInvoices(raws)[k];
            var meta := ReadInvoiceMeta(card.internalId, paymentStatus);
            meta.month == card.month && meta.year == card.year
  {
    SameLabelsAsClientPage(raws[k].month, paymentStatus);
  }

  // ---------------------------------------------------------------- total

  /** `projects.reduce((sum, p) => sum + p.amount, 0)`. */
  function TotalAmount(ps: seq<Project>): (r: int)
    ensures ps == [] ==> r == 0
    ensures (forall i :: 0 <= i < |ps| ==> ps[i].amount >= 0) ==> r >= 0
  {
    if ps == [] then 0 else TotalAmount(ps[..|ps| - 1]) + ps[|ps| - 1].amount
  }

  lemma {:induction false} TotalAmountAppend(a: seq<Project>, b: seq<Project>)
    ensures TotalAmount(a + b) == TotalAmount(a) + TotalAmount(b)
  {
    if b != [] {
      var ab := a + b;
      assert ab[..|ab| - 1] == a + b[..|b| - 1];
      TotalAmountAppend(a, b[..|b| - 1]);
    } else {
      assert a + b == a;
    }
  }

  lemma TotalAmountSingle(p: Project)
    ensures TotalAmount([p]) == p.amount
  {
    assert [p][..0] == [];
  }

  // ---------------------------------------------------------------- scope line

  /** The first space-separated word of every project's type, in list order. */
  function Words(ps: seq<Project>): (ws: seq<string>)
    ensures |ws| == |ps|
  {
    seq(|ps|, i requires 0 <= i < |ps| => FirstWord(ps[i].projectType))
  }

  /** How many of `ws` equal `w`. */
  function Count(ws: seq<string>, w: string): nat {
    if ws == [] then 0
    else Count(ws[..|ws| - 1], w) + (if ws[|ws| - 1] == w then 1 else 0)
  }

  /** No value occurs twice. */
  ghost predicate Unique(s: seq<string>) {
    forall x :: multiset(s)[x] <= 1
  }

  /** The position of the first occurrence of `x`. */
  function FirstIndex(ws: seq<string>, x: string): (i: nat)
    requires x in ws
    ensures i < |ws| && ws[i] == x && x !in ws[..i]
  {
    if ws[0] == x then 0 else 1 + FirstIndex(ws[1..], x)
  }

  /** The distinct values of `ws` in order of first occurrence: the insertion order of the `counts` object. */
  function Distinct(ws: seq<string>): (r: seq<string>)
    ensures forall x :: x in r <==> x in ws
    ensures Unique(r)
  {
    if ws == [] then []
    else
      var d := Distinct(ws[..|ws| - 1]);
      var w := ws[|ws| - 1];
      assert ws == ws[..|ws| - 1] + [w];
      if w in d then d else d + [w]
  }

  lemma {:induction false} FirstIndexSnoc(ws: seq<string>, w: string, x: string)
    requires x in ws
    ensures FirstIndex(ws + [w], x) == FirstIndex(ws, x)
  {
    if ws[0] != x {
      assert (ws + [w])[1..] == ws[1..] + [w];
      FirstIndexSnoc(ws[1..], w, x);
    }
  }

  /** The keys come in the order in which their first projects appear in the list. */
  lemma {:induction false} DistinctFirstOccurrenceOrder(ws: seq<string>)
    ensures forall i, j :: 0 <= i < j < |Distinct(ws)| ==>
      FirstIndex(ws, Distinct(ws)[i]) < FirstIndex(ws, Distinct(ws)[j])
  {
    if ws != [] {
      var front, w := ws[..|ws| - 1], ws[|ws| - 1];
      assert ws == front + [w];
      DistinctFirstOccurrenceOrder(front);
      var d := Distinct(front);
      forall x | x in front ensures FirstIndex(ws, x) == FirstIndex(front, x) {
        FirstIndexSnoc(front, w, x);
      }
      if w !in front {
        assert w !in ws[..|front|];
        assert FirstIndex(ws, w) == |front|;
      }
    }
  }

  /** A canonical array index ("0", "7", "42", below 2^32 - 1): JavaScript lists such keys first, in numeric order. */
  predicate IsArrayIndex(k: string) {
    k != [] && AllDigits(k) && (k[0] != '0' || |k| == 1) && DigitsValue(k) < 4294967295
  }

  function IndexKeys(ks: seq<string>): (r: seq<string>)
    ensures forall i :: 0 <= i < |r| ==> IsArrayIndex(r[i])
  {
    if ks == [] then []
    else
      assert ks == [ks[0]] + ks[1..];
      (if IsArrayIndex(ks[0]) then [ks[0]] else []) + IndexKeys(ks[1..])
  }

  function OtherKeys(ks: seq<string>): seq<string> {
    if ks == [] then []
    else
      assert ks == [ks[0]] + ks[1..];
      (if IsArrayIndex(ks[0]) then [] else [ks[0]]) + OtherKeys(ks[1..])
  }

  /** Every key goes to exactly one of the two parts. */
  lemma {:induction false} SplitKeysMultiset(ks: seq<string>)
    ensures multiset(OtherKeys(ks)) + multiset(IndexKeys(ks)) == multiset(ks)
  {
    if ks != [] {
      SplitKeysMultiset(ks[1..]);
      assert ks == [ks[0]] + ks[1..];
    }
  }

  lemma {:induction false} NoIndexKeys(ks: seq<string>)
    requires forall i :: 0 <= i < |ks| ==> !IsArrayIndex(ks[i])
    ensures IndexKeys(ks) == [] && OtherKeys(ks) == ks
  {
    if ks != [] {
      NoIndexKeys(ks[1..]);
      assert [ks[0]] + ks[1..] == ks;
    }
  }

  function KeyValue(k: string): nat
    requires IsArrayIndex(k)
  {
    DigitsValue(k)
  }

  function InsertByValue(k: string, s: seq<string>): (r: seq<string>)
    requires IsArrayIndex(k) && forall i :: 0 <= i < |s| ==> IsArrayIndex(s[i])
    ensures multiset(r) == multiset(s) + multiset{k}
    ensures forall i :: 0 <= i < |r| ==> IsArrayIndex(r[i])
  {
    if s == [] || KeyValue(k) <= KeyValue(s[0]) then [k] + s
    else
      assert s == [s[0]] + s[1..];
      [s[0]] + InsertByValue(k, s[1..])
  }

  function SortByValue(s: seq<string>): (r: seq<string>)
    requires forall i :: 0 <= i < |s| ==> IsArrayIndex(s[i])
    ensures multiset(r) == multiset(s)
    ensures forall i :: 0 <= i < |r| ==> IsArrayIndex(r[i])
  {
    if s == [] then []
    else
      assert s == [s[0]] + s[1..];
      InsertByValue(s[0], SortByValue(s[1..]))
  }

  predicate Ascending(s: seq<string>)
    requires forall i :: 0 <= i < |s| ==> IsArrayIndex(s[i])
  {
    forall i, j :: 0 <= i < j < |s| ==> KeyValue(s[i]) <= KeyValue(s[j])
  }

  /** A bound below `k` and below every element of `s` stays below every element of `InsertByValue(k, s)`. */
  lemma BoundBelowInsert(bound: nat, k: string, s: seq<string>)
    requires IsArrayIndex(k) && forall i :: 0 <= i < |s| ==> IsArrayIndex(s[i])
    requires bound <= KeyValue(k) && forall i :: 0 <= i < |s| ==> bound <= KeyValue(s[i])
    ensures forall j :: 0 <= j < |InsertByValue(k, s)| ==> bound <= KeyValue(InsertByValue(k, s)[j])
  {
    var r := InsertByValue(k, s);
    forall j | 0 <= j < |r| ensures bound <= KeyValue(r[j]) {
      assert r[j] in multiset(r);
      if r[j] != k {
        assert r[j] in multiset(s);
      }
    }
  }

  lemma {:induction false} InsertByValueAscending(k: string, s: seq<string>)
    requires IsArrayIndex(k) && forall i :: 0 <= i < |s| ==> IsArrayIndex(s[i])
    requires Ascending(s)
    ensures Ascending(InsertByValue(k, s))
  {
    if s != [] && KeyValue(k) > KeyValue(s[0]) {
      InsertByValueAscending(k, s[1..]);
      BoundBelowInsert(KeyValue(s[0]), k, s[1..]);
    }
  }

  /** The array-index keys come out in ascending numeric order. */
  lemma {:induction false} SortByValueAscending(s: seq<string>)
    requires forall i :: 0 <= i < |s| ==> IsArrayIndex(s[i])
    ensures Ascending(SortByValue(s))
  {
    if s != [] {
      SortByValueAscending(s[1..]);
      InsertByValueAscending(s[0], SortByValue(s[1..]));
    }
  }

  /** The order of `Object.entries`: array-index keys ascending, then the rest in insertion order. */
  function EntryOrder(keys: seq<string>): (r: seq<string>)
    ensures multiset(r) == multiset(keys)
  {
    SplitKeysMultiset(keys);
    SortByValue(IndexKeys(keys)) + OtherKeys(keys)
  }

  /** Only non-index keys are left for the insertion-order part. */
  lemma {:induction false} OtherKeysAreNotIndices(keys: seq<string>)
    ensures forall n :: 0 <= n < |OtherKeys(keys)| ==> !IsArrayIndex(OtherKeys(keys)[n])
  {
    if keys != [] {
      OtherKeysAreNotIndices(keys[1..]);
    }
  }

  lemma {:induction false} OtherKeysFromKeys(keys: seq<string>)
    ensures forall k :: k in OtherKeys(keys) ==> k in keys
  {
    if keys != [] {
      OtherKeysFromKeys(keys[1..]);
    }
  }

  /** Past its first element, a key's first position in a distinct list is one more than in the tail. */
  lemma FirstIndexTail(keys: seq<string>, k: string)
    requires Unique(keys) && keys != [] && k in keys[1..]
    ensures FirstIndex(keys, k) == 1 + FirstIndex(keys[1..], k)
    ensures Unique(keys[1..])
  {
    assert keys == [keys[0]] + keys[1..];
    assert multiset(keys) == multiset{keys[0]} + multiset(keys[1..]);
    assert keys[0] != k by {
      assert k in multiset(keys[1..]);
      assert multiset(keys)[k] <= 1;
    }
    forall x ensures multiset(keys[1..])[x] <= 1 {
      assert multiset(keys)[x] <= 1;
    }
  }

  /** Two non-index keys come out in the order of their insertion. */
  lemma {:induction false} OtherKeysPairInOrder(keys: seq<string>, i: nat, j: nat)
    requires Unique(keys) && i < j < |OtherKeys(keys)|
    ensures OtherKeys(keys)[i] in keys && OtherKeys(keys)[j] in keys
    ensures FirstIndex(keys, OtherKeys(keys)[i]) < FirstIndex(keys, OtherKeys(keys)[j])
  {
    var rest := keys[1..];
    var r, t := OtherKeys(keys), OtherKeys(rest);
    OtherKeysFromKeys(rest);
    if IsArrayIndex(keys[0]) {
      assert r == t;
      assert t[i] in t && t[j] in t;
      FirstIndexTail(keys, t[i]);
      FirstIndexTail(keys, t[j]);
      OtherKeysPairInOrder(rest, i, j);
    } else {
      assert r == [keys[0]] + t;
      assert r[j] == t[j - 1] && t[j - 1] in t;
      FirstIndexTail(keys, t[j - 1]);
      if i > 0 {
        OtherKeysPairInOrder(rest, i - 1, j - 1);
        assert r[i] == t[i - 1] && t[i - 1] in t;
        FirstIndexTail(keys, t[i - 1]);
      }
    }
  }

  /** The non-index keys keep the order in which they were inserted. */
  lemma OtherKeysInOrder(keys: seq<string>)
    requires Unique(keys)
    ensures forall k :: k in OtherKeys(keys) ==> k in keys
    ensures forall i, j :: 0 <= i < j < |OtherKeys(keys)| ==>
      FirstIndex(keys, OtherKeys(keys)[i]) < FirstIndex(keys, OtherKeys(keys)[j])
  {
    OtherKeysFromKeys(keys);
    var r := OtherKeys(keys);
    forall i, j | 0 <= i < j < |r| ensures FirstIndex(keys, r[i]) < FirstIndex(keys, r[j]) {
      OtherKeysPairInOrder(keys, i, j);
    }
  }

  /**
   * The order of `Object.entries` over distinct keys: an array-index key is
   * preceded only by array-index keys of no larger value, and the other keys
   * follow in insertion order.
   */
  lemma EntryOrderRule(keys: seq<string>)
    requires Unique(keys)
    ensures forall k :: k in EntryOrder(keys) ==> k in keys
    ensures var r := EntryOrder(keys);
            forall i, j :: 0 <= i < j < |r| && IsArrayIndex(r[j]) ==>
              IsArrayIndex(r[i]) && KeyValue(r[i]) <= KeyValue(r[j])
    ensures var r := EntryOrder(keys);
            forall i, j :: 0 <= i < j < |r| && !IsArrayIndex(r[i]) && !IsArrayIndex(r[j]) ==>
              FirstIndex(keys, r[i]) < FirstIndex(keys, r[j])
  {
    var r := EntryOrder(keys);
    forall k | k in r ensures k in keys {
      assert k in multiset(r);
    }
    forall i, j | 0 <= i < j < |r| && IsArrayIndex(r[j])
      ensures IsArrayIndex(r[i]) && KeyValue(r[i]) <= KeyValue(r[j])
    {
      IndexEntriesFirst(keys, i, j);
    }
    forall i, j | 0 <= i < j < |r| && !IsArrayIndex(r[i]) && !IsArrayIndex(r[j])
      ensures FirstIndex(keys, r[i]) < FirstIndex(keys, r[j])
    {
      OtherEntriesInOrder(keys, i, j);
    }
  }

  /** An array-index entry is preceded only by array-index entries of no larger value. */
  lemma IndexEntriesFirst(keys: seq<string>, i: nat, j: nat)
    requires i < j < |EntryOrder(keys)| && IsArrayIndex(EntryOrder(keys)[j])
    ensures IsArrayIndex(EntryOrder(keys)[i]) && KeyValue(EntryOrder(keys)[i]) <= KeyValue(EntryOrder(keys)[j])
  {
    var a, b := SortByValue(IndexKeys(keys)), OtherKeys(keys);
    assert EntryOrder(keys) == a + b;
    OtherKeysAreNotIndices(keys);
    assert j < |a|;
    SortByValueAscending(IndexKeys(keys));
    assert EntryOrder(keys)[i] == a[i] && EntryOrder(keys)[j] == a[j];
  }

  /** Two entries that are not array indices come in insertion order. */
  lemma OtherEntriesInOrder(keys: seq<string>, i: nat, j: nat)
    requires Unique(keys)
    requires i < j < |EntryOrder(keys)| && !IsArrayIndex(EntryOrder(keys)[i]) && !IsArrayIndex(EntryOrder(keys)[j])
    ensures EntryOrder(keys)[i] in keys && EntryOrder(keys)[j] in keys
    ensures FirstIndex(keys, EntryOrder(keys)[i]) < FirstIndex(keys, EntryOrder(keys)[j])
  {
    var a, b := SortByValue(IndexKeys(keys)), OtherKeys(keys);
    var r := EntryOrder(keys);
    assert i >= |a| && r[i] == b[i - |a|] && r[j] == b[j - |a|] by {
      assert r == a + b;
    }
    OtherKeysPairInOrder(keys, i - |a|, j - |a|);
  }

  /** With no number-like key the entries keep the insertion order. */
  lemma EntryOrderWithoutIndexKeys(keys: seq<string>)
    requires forall i :: 0 <= i < |keys| ==> !IsArrayIndex(keys[i])
    ensures EntryOrder(keys) == keys
  {
    NoIndexKeys(keys);
  }

  /** "`count` `word`". */
  function Entry(count: nat, word: string): (r: string)
    ensures |r| > 0 && IsDigit(r[0])
  {
    Decimal(count) + " " + word
  }

  /** One entry per key of `order`, counting the words of `ws`. */
  function CountEntries(ws: seq<string>, order: seq<string>): (r: seq<string>)
    ensures |r| == |order|
  {
    if order == [] then [] else [Entry(Count(ws, order[0]), order[0])] + CountEntries(ws, order[1..])
  }

  /** The scope line the page shows for a project list. */
  function ScopeText(ps: seq<Project>): (r: string)
    ensures r == "No Projects" <==> ps == []
    ensures ps != [] ==> r != [] && IsDigit(r[0])
  {
    var ws := Words(ps);
    var joined := Join(" & ", CountEntries(ws, EntryOrder(Distinct(ws))));
    assert ps != [] ==> joined != "" && IsDigit(joined[0]) by {
      if ps != [] {
        EntriesStartWithDigit(ps);
      }
    }
    assert ps == [] ==> joined == "" by {
      if ps == [] {
        assert Distinct(ws) == [];
      }
    }
    if joined == "" then "No Projects" else joined
  }

  /** Every entry of the scope line starts with its count, so a non-empty list gives a line starting with a digit. */
  lemma EntriesStartWithDigit(ps: seq<Project>)
    requires ps != []
    ensures var ws := Words(ps);
            var joined := Join(" & ", CountEntries(ws, EntryOrder(Distinct(ws))));
            joined != "" && IsDigit(joined[0])
  {
    var ws := Words(ps);
    var order := EntryOrder(Distinct(ws));
    assert ws[0] in Distinct(ws);
    assert ws[0] in multiset(order);
    var entries := CountEntries(ws, order);
    var joined := Join(" & ", entries);
    assert joined[..|entries[0]|] == entries[0];
    assert IsDigit(joined[0]);
  }

  lemma DistinctSnoc(front: seq<string>, w: string)
    ensures Distinct(front + [w]) == if w in Distinct(front) then Distinct(front) else Distinct(front) + [w]
  {
    assert (front + [w])[..|front|] == front;
  }

  lemma CountSnoc(front: seq<string>, w: string, k: string)
    ensures Count(front + [w], k) == Count(front, k) + (if w == k then 1 else 0)
  {
    assert (front + [w])[..|front|] == front;
  }

  /** `Object.entries(counts).map(([type, count]) => `${count} ${type}`)` over the keys in `order`. */
  function DictEntries(counts: map<string, nat>, order: seq<string>): (r: seq<string>)
    requires forall k :: k in order ==> k in counts
    ensures |r| == |order|
  {
    if order == [] then [] else [Entry(counts[order[0]], order[0])] + DictEntries(counts, order[1..])
  }

  /** Listing the entries from the dictionary gives the entries of the scope line. */
  lemma {:induction false} DictEntriesAgree(ws: seq<string>, counts: map<string, nat>, order: seq<string>)
    requires forall k :: k in order ==> k in counts && counts[k] == Count(ws, k)
    ensures DictEntries(counts, order) == CountEntries(ws, order)
  {
    if order != [] {
      DictEntriesAgree(ws, counts, order[1..]);
    }
  }

  /** The `counts` dictionary after the words `ws` have been tallied one after the other. */
  function TallyMap(ws: seq<string>): map<string, nat> {
    if ws == [] then map[]
    else
      var m := TallyMap(ws[..|ws| - 1]);
      var w := ws[|ws| - 1];
      m[w := (if w in m then m[w] else 0) + 1]
  }

  /** The dictionary's keys are exactly the words seen. */
  lemma {:induction false} TallyMapKeys(ws: seq<string>)
    ensures forall k :: k in TallyMap(ws) <==> k in ws
  {
    if ws != [] {
      var front, w := ws[..|ws| - 1], ws[|ws| - 1];
      assert ws == front + [w];
      TallyMapKeys(front);
    }
  }

  /** The dictionary holds exactly the words seen, each with its number of occurrences. */
  lemma {:induction false} TallyMapCounts(ws: seq<string>)
    ensures forall k :: k in TallyMap(ws) <==> k in ws
    ensures forall k :: k in TallyMap(ws) ==> TallyMap(ws)[k] == Count(ws, k)
  {
    TallyMapKeys(ws);
    if ws != [] {
      var front, w := ws[..|ws| - 1], ws[|ws| - 1];
      assert ws == front + [w];
      TallyMapCounts(front);
      if w !in front {
        CountAbsent(front, w);
      }
      forall k | k in TallyMap(ws) ensures TallyMap(ws)[k] == Count(ws, k) {
        CountSnoc(front, w, k);
      }
    }
  }

  lemma {:induction false} CountAbsent(ws: seq<string>, w: string)
    requires w !in ws
    ensures Count(ws, w) == 0
  {
    if ws != [] {
      assert ws[..|ws| - 1] <= ws;
      CountAbsent(ws[..|ws| - 1], w);
    }
  }

  /** Listing the finished dictionary gives the entries of the scope line. */
  lemma TallyEntries(ws: seq<string>)
    ensures forall k :: k in EntryOrder(Distinct(ws)) ==> k in TallyMap(ws)
    ensures DictEntries(TallyMap(ws), EntryOrder(Distinct(ws))) == CountEntries(ws, EntryOrder(Distinct(ws)))
  {
    TallyMapCounts(ws);
    var order := EntryOrder(Distinct(ws));
    forall k | k in order ensures k in TallyMap(ws) && TallyMap(ws)[k] == Count(ws, k) {
      assert k in multiset(Distinct(ws));
    }
    DictEntriesAgree(ws, TallyMap(ws), order);
  }

  /**
   * The `forEach` of `getProjectScopeText`: count the projects per first type
   * word in a dictionary; `keys` is the dictionary's insertion order.
   */
  method CountTypeWords(projects: seq<Project>) returns (keys: seq<string>, counts: map<string, nat>)
    ensures keys == Distinct(Words(projects)) && counts == TallyMap(Words(projects))
    ensures forall k :: k in counts <==> k in Words(projects)
    ensures forall k :: k in counts ==> counts[k] == Count(Words(projects), k)
  {
    ghost var ws := Words(projects);
    counts := map[];
    keys := [];
    var i := 0;
    while i < |projects|
      invariant 0 <= i <= |projects|
      invariant keys == Distinct(ws[..i]) && counts == TallyMap(ws[..i])
    {
      var word := FirstWord(projects[i].projectType);
      assert ws[..i + 1] == ws[..i] + [word];
      DistinctSnoc(ws[..i], word);
      TallyMapSnoc(ws[..i], word);
      TallyMapKeys(ws[..i]);
      var previous := if word in counts then counts[word] else 0;
      keys := if word in counts then keys else keys + [word];
      counts := counts[word := previous + 1];
      i := i + 1;
    }
    assert ws[..i] == ws;
    TallyMapCounts(ws);
  }

  lemma TallyMapSnoc(front: seq<string>, w: string)
    ensures TallyMap(front + [w]) == TallyMap(front)[w := (if w in TallyMap(front) then TallyMap(front)[w] else 0) + 1]
  {
    assert (front + [w])[..|front|] == front;
  }

  /** `getProjectScopeText`: the entries of the counting dictionary joined by " & ", or "No Projects". */
  method ProjectScopeText(projects: seq<Project>) returns (text: string)
    ensures text == ScopeText(projects)
  {
    var keys, counts := CountTypeWords(projects);
    TallyEntries(Words(projects));
    text := Join(" & ", DictEntries(counts, EntryOrder(keys)));
    if text == "" {
      text := "No Projects";
    }
  }

  /** The sum of the counts of `keys`. */
  function SumCounts(ws: seq<string>, keys: seq<string>): nat {
    if keys == [] then 0 else Count(ws, keys[0]) + SumCounts(ws, keys[1..])
  }

  lemma {:induction false} SumCountsSnoc(ws: seq<string>, w: string, keys: seq<string>)
    ensures SumCounts(ws + [w], keys) == SumCounts(ws, keys) + multiset(keys)[w]
  {
    if keys != [] {
      assert (ws + [w])[..|ws|] == ws;
      assert keys == [keys[0]] + keys[1..];
      SumCountsSnoc(ws, w, keys[1..]);
    }
  }

  lemma {:induction false} SumCountsCover(ws: seq<string>, keys: seq<string>)
    requires Unique(keys)
    requires forall x :: x in ws ==> x in keys
    ensures SumCounts(ws, keys) == |ws|
  {
    if ws == [] {
      SumCountsOfEmpty(keys);
    } else {
      var front, w := ws[..|ws| - 1], ws[|ws| - 1];
      assert ws == front + [w];
      SumCountsCover(front, keys);
      SumCountsSnoc(front, w, keys);
      assert w in ws;
      assert w in multiset(keys);
    }
  }

  lemma {:induction false} SumCountsOfEmpty(keys: seq<string>)
    ensures SumCounts([], keys) == 0
  {
    if keys != [] {
      SumCountsOfEmpty(keys[1..]);
    }
  }

  /** The counts in the scope line add up to the number of projects. */
  lemma ScopeCountsAddUp(ps: seq<Project>)
    ensures SumCounts(Words(ps), EntryOrder(Distinct(Words(ps)))) == |ps|
  {
    var ws := Words(ps);
    var order := EntryOrder(Distinct(ws));
    forall x | x in ws ensures x in order {
      assert x in multiset(Distinct(ws));
    }
    SumCountsCover(ws, order);
  }

  // ---------------------------------------------------------------- local edits

  /** What the editor hands back: a project with its id, or the fields of a new one. */
  datatype Submission = Identified(project: Project) | Unidentified(name: string, projectType: string, amount: int, images: seq<string>)

  /** `prev.map(p => p.id === edited.id ? edited : p)`. */
  function EditProject(ps: seq<Project>, edited: Project): (r: seq<Project>)
    ensures |r| == |ps|
    ensures forall i :: 0 <= i < |ps| ==> r[i] == (if ps[i].id == edited.id then edited else ps[i])
  {
    if ps == [] then []
    else [if ps[0].id == edited.id then edited else ps[0]] + EditProject(ps[1..], edited)
  }

  /** `handleAddProject`: a submission with an id replaces the projects with that id; one without is prepended with the id `now`. */
  function AddProject(ps: seq<Project>, submission: Submission, now: int): (r: seq<Project>)
    ensures submission.Identified? ==> r == EditProject(ps, submission.project)
    ensures submission.Unidentified? ==>
      && |r| == |ps| + 1 && r[1..] == ps
      && r[0] == Project(now, submission.name, submission.projectType, submission.amount, submission.images)
  {
    match submission
    case Identified(p) => EditProject(ps, p)
    case Unidentified(name, projectType, amount, images) => [Project(now, name, projectType, amount, images)] + ps
  }

  /** Editing with an id no project carries leaves the list as it was. */
  lemma EditUnknownIdIsNoOp(ps: seq<Project>, edited: Project)
    requires forall i :: 0 <= i < |ps| ==> ps[i].id != edited.id
    ensures EditProject(ps, edited) == ps
  {
  }

  /** Editing twice with the same project is editing once. */
  lemma EditIdempotent(ps: seq<Project>, edited: Project)
    ensures EditProject(EditProject(ps, edited), edited) == EditProject(ps, edited)
  {
  }

  /** Prepending adds the new amount to the total. */
  lemma AddRaisesTotal(ps: seq<Project>, name: string, projectType: string, amount: int, images: seq<string>, now: int)
    ensures TotalAmount(AddProject(ps, Unidentified(name, projectType, amount, images), now)) == amount + TotalAmount(ps)
  {
    var p := Project(now, name, projectType, amount, images);
    TotalAmountAppend([p], ps);
    TotalAmountSingle(p);
  }

  /** Some project on the page carries `id`. */
  predicate HasId(ps: seq<Project>, id: int) {
    exists i :: 0 <= i < |ps| && ps[i].id == id
  }

  /**
   * The add handler as the editor needs it: a project with an id the page already
   * shows replaces it, and one with an id the page does not know (a project the
   * server has just created) is prepended.
   */
  function UpsertProject(ps: seq<Project>, submission: Submission, now: int): (r: seq<Project>)
    ensures submission.Identified? ==> submission.project in r
    ensures submission.Identified? && HasId(ps, submission.project.id) ==> r == AddProject(ps, submission, now)
    ensures submission.Identified? && !HasId(ps, submission.project.id) ==> r == [submission.project] + ps
    ensures submission.Unidentified? ==> r == AddProject(ps, submission, now)
  {
    match submission
    case Identified(p) =>
      if HasId(ps, p.id) then
        var i :| 0 <= i < |ps| && ps[i].id == p.id;
        var r := EditProject(ps, p);
        assert r[i] == p;
        r
      else [p] + ps
    case Unidentified(_, _, _, _) => AddProject(ps, submission, now)
  }

  /** How many projects carry `id`. */
  function CountId(ps: seq<Project>, id: int): nat {
    if ps == [] then 0 else (if ps[0].id == id then 1 else 0) + CountId(ps[1..], id)
  }

  /** The summed amount of the projects that carry `id`. */
  function AmountOfId(ps: seq<Project>, id: int): int {
    if ps == [] then 0 else (if ps[0].id == id then ps[0].amount else 0) + AmountOfId(ps[1..], id)
  }

  /** `prev.filter(p => p.id !== id)`. */
  function RemoveById(ps: seq<Project>, id: int): (r: seq<Project>)
    ensures forall p :: p in r <==> p in ps && p.id != id
    ensures |r| + CountId(ps, id) == |ps|
  {
    if ps == [] then []
    else
      assert ps == [ps[0]] + ps[1..];
      (if ps[0].id == id then [] else [ps[0]]) + RemoveById(ps[1..], id)
  }

  /** Removal works piecewise, so the kept projects stay in their order. */
  lemma {:induction false} RemoveByIdAppend(a: seq<Project>, b: seq<Project>, id: int)
    ensures RemoveById(a + b, id) == RemoveById(a, id) + RemoveById(b, id)
  {
    if a != [] {
      assert (a + b)[1..] == a[1..] + b;
      RemoveByIdAppend(a[1..], b, id);
    } else {
      assert a + b == b;
    }
  }

  /** Deleting takes exactly the amounts of the removed projects off the total. */
  lemma {:induction false} RemoveByIdTotal(ps: seq<Project>, id: int)
    ensures TotalAmount(RemoveById(ps, id)) + AmountOfId(ps, id) == TotalAmount(ps)
  {
    if ps != [] {
      RemoveByIdTotal(ps[1..], id);
      var head := if ps[0].id == id then [] else [ps[0]];
      TotalAmountAppend(head, RemoveById(ps[1..], id));
      TotalAmountAppend([ps[0]], ps[1..]);
      TotalAmountSingle(ps[0]);
      assert [ps[0]] + ps[1..] == ps;
    }
  }

  /** The list and the delete dialog of the page. */
  datatype PageState = PageState(projects: seq<Project>, pendingDelete: Option<int>, deleteModalOpen: bool)

  /** `handleDeleteClick`: remember the id and open the dialog. */
  function DeleteClick(st: PageState, id: int): (r: PageState)
    ensures r.projects == st.projects && r.pendingDelete == Some(id) && r.deleteModalOpen
  {
    st.(pendingDelete := Some(id), deleteModalOpen := true)
  }

  /**
   * `confirmDelete`: with a pending id that is neither `null` nor 0, drop every
   * project with it, close the dialog and forget the id; otherwise nothing changes.
   */
  function ConfirmDelete(st: PageState): (r: PageState)
    ensures st.pendingDelete.None? || st.pendingDelete.value == 0 ==> r == st
    ensures st.pendingDelete.Some? && st.pendingDelete.value != 0 ==>
      && r.projects == RemoveById(st.projects, st.pendingDelete.value)
      && r.pendingDelete.None? && !r.deleteModalOpen
  {
    if st.pendingDelete.Some? && st.pendingDelete.value != 0 then
      PageState(RemoveById(st.projects, st.pendingDelete.value), None, false)
    else st
  }

  /**
   * `handleDeleteClick` followed by `confirmDelete`: the two page handlers in
   * sequence remove the project and every project sharing its id, and nothing else.
   * Whether the dialog ever calls `confirmDelete` is `DialogDelete`'s concern.
   */
  lemma DeleteClickThenConfirm(st: PageState, id: int)
    requires id != 0
    ensures var r := ConfirmDelete(DeleteClick(st, id));
            && (forall p :: p in r.projects <==> p in st.projects && p.id != id)
            && r.pendingDelete.None? && !r.deleteModalOpen
  {
  }

  // ---------------------------------------------------------------- delete dialog

  /** How the dialog's delete request ended: a parsed response, or a network or JSON failure. */
  datatype DeleteReply = DeleteAnswered(ok: bool) | DeleteFailed

  /** What the dialog's delete button did: the project id it posted, if any, and the page state afterwards. */
  datatype DialogResult = DialogResult(posted: Option<int>, page: PageState)

  /**
   * The dialog's `handleDelete`, with the page's `confirmDelete` as `onConfirm`
   * and closing as `onClose`: without a truthy `projectId` nothing is posted and
   * nothing changes; otherwise the id is posted, and only an ok answer confirms
   * the delete on the page and closes the dialog.
   */
  function DialogDelete(st: PageState, projectId: Option<int>, reply: DeleteReply): (r: DialogResult)
    ensures projectId.None? || projectId.value == 0 ==> r == DialogResult(None, st)
    ensures projectId.Some? && projectId.value != 0 ==> r.posted == projectId
    ensures reply != DeleteAnswered(true) ==> r.page == st
    ensures r.page.projects != st.projects ==> r.posted.Some? && reply == DeleteAnswered(true)
  {
    if projectId.None? || projectId.value == 0 then DialogResult(None, st)
    else if reply == DeleteAnswered(true) then DialogResult(projectId, ConfirmDelete(st).(deleteModalOpen := false))
    else DialogResult(projectId, st)
  }

  /**
   * As the page renders the dialog, with no `projectId`: clicking delete and then
   * the dialog's delete button posts nothing, and the project stays listed with
   * the dialog open, whatever the server would have answered.
   */
  lemma PageDialogNeverDeletes(st: PageState, id: int, reply: DeleteReply)
    ensures var clicked := DeleteClick(st, id);
            var r := DialogDelete(clicked, None, reply);
            && r.posted.None? && r.page.projects == st.projects && r.page.deleteModalOpen
  {
  }

  /**
   * With the dialog given the page's pending id: an ok answer removes exactly the
   * projects with the clicked id and closes the dialog; any other outcome leaves
   * the list as it was.
   */
  lemma DialogWithIdDeletes(st: PageState, id: int, reply: DeleteReply)
    requires id != 0
    ensures var clicked := DeleteClick(st, id);
            var r := DialogDelete(clicked, clicked.pendingDelete, reply);
            && r.posted == Some(id)
            && (reply == DeleteAnswered(true) ==>
                  && (forall p :: p in r.page.projects <==> p in st.projects && p.id != id)
                  && r.page.pendingDelete.None? && !r.page.deleteModalOpen)
            && (reply != DeleteAnswered(true) ==> r.page.projects == st.projects)
  {
    DeleteClickThenConfirm(st, id);
  }
}
