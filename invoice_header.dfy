// The invoice page header's payment-status toggle: a PENDING/PAID switch that
// commits the new status only when the server accepts it, and that ignores
// clicks while a request is in flight.

module InvoiceHeader {
  import opened Wrappers
  import opened JsText

  const Pending := "PENDING"
  const Paid := "PAID"

  /** The status a click asks for: PAID from PENDING, and PENDING from anything else. */
  function Toggled(status: string): (r: string)
    ensures r == Pending || r == Paid
    ensures r == Paid <==> status == Pending
  {
    if status == Pending then Paid else Pending
  }

  /** Two toggles from either of the two states come back to it. */
  lemma ToggleTwice(status: string)
    requires status == Pending || status == Paid
    ensures Toggled(Toggled(status)) == status
  {
  }

  /** Both states are already upper case, so upper-casing leaves them as they are. */
  lemma {:induction false} StateIsUpper(status: string)
    requires status == Pending || status == Paid
    ensures ToUpper(status) == status
  {
    forall i | 0 <= i < |status|
      ensures ToUpper(status)[i] == status[i]
    {
      assert 'A' <= status[i] <= 'Z';
    }
  }

  /** The body of `POST /api/update/invoice-status`; `clientId` is `None` when the page does not pass one. */
  datatype StatusRequest = StatusRequest(clientId: Option<string>, month: string, year: string, status: string)

  /** How the request ended: a parsed response, or a network or JSON failure. */
  datatype Outcome = Responded(ok: bool) | Failed

  /** The header's status state for one invoice. */
  class StatusToggle {
    const clientId: Option<string>
    const month: string
    const year: string
    var status: string
    var isUpdating: bool

    /** The shown status is always upper case. */
    predicate Valid()
      reads this
    {
      ToUpper(status) == status
    }

    /** The header starts from the upper-cased status it was given, with no request in flight. */
    constructor (clientId: Option<string>, month: string, year: string, initialStatus: string)
      ensures this.clientId == clientId && this.month == month && this.year == year
      ensures status == ToUpper(initialStatus) && !isUpdating
      ensures Valid()
    {
      this.clientId := clientId;
      this.month := month;
      this.year := year;
      status := ToUpper(initialStatus);
      isUpdating := false;
      ToUpperIdempotent(initialStatus);
    }

    /** A new status from the page replaces the shown one, upper-cased. */
    method SyncStatus(initialStatus: string)
      modifies this`status
      ensures status == ToUpper(initialStatus)
      ensures Valid()
    {
      status := ToUpper(initialStatus);
      ToUpperIdempotent(initialStatus);
    }

    /** The click: ignored while a request is in flight, otherwise it marks one in flight and asks for the other state. */
    method BeginToggle() returns (request: Option<StatusRequest>)
      modifies this`isUpdating
      ensures old(isUpdating) ==> request.None? && isUpdating
      ensures !old(isUpdating) ==>
        request == Some(StatusRequest(clientId, month, year, Toggled(status))) && isUpdating
      ensures Valid() <==> old(Valid())
    {
      if isUpdating {
        return None;
      }
      isUpdating := true;
      request := Some(StatusRequest(clientId, month, year, Toggled(status)));
    }

    /**
     * The request has ended: the asked-for status is committed only on an ok
     * response, even if the page re-synced the status meanwhile; the in-flight
     * flag is always cleared.
     */
    method FinishToggle(request: StatusRequest, outcome: Outcome)
      requires Valid()
      requires request.status == Pending || request.status == Paid
      modifies this`status, this`isUpdating
      ensures status == (if outcome == Responded(true) then request.status else old(status))
      ensures !isUpdating
      ensures Valid()
    {
      if outcome.Responded? && outcome.ok {
        status := request.status;
        StateIsUpper(request.status);
      }
      isUpdating := false;
    }

    /** `toggleStatus` from the click to the end of its request, with nothing else happening meanwhile. */
    method ToggleStatus(outcome: Outcome) returns (request: Option<StatusRequest>)
      requires Valid()
      modifies this`status, this`isUpdating
      ensures old(isUpdating) ==> request.None? && status == old(status) && isUpdating
      ensures !old(isUpdating) ==>
        && request == Some(StatusRequest(clientId, month, year, Toggled(old(status))))
        && status == (if outcome == Responded(true) then Toggled(old(status)) else old(status))
        && !isUpdating
      ensures Valid()
    {
      request := BeginToggle();
      if request.Some? {
        FinishToggle(request.value, outcome);
      }
    }
  }

  /** A header opened on PENDING or PAID (in any case) whose two toggles both succeed shows its first status again. */
  method TwoAcceptedToggles(clientId: Option<string>, month: string, year: string, initialStatus: string) returns (final: string)
    requires ToUpper(initialStatus) == Pending || ToUpper(initialStatus) == Paid
    ensures final == ToUpper(initialStatus)
  {
    var header := new StatusToggle(clientId, month, year, initialStatus);
    var first := header.ToggleStatus(Responded(true));
    var second := header.ToggleStatus(Responded(true));
    ToggleTwice(ToUpper(initialStatus));
    final := header.status;
  }

  /** A rejected or failed toggle leaves the shown status as it was and the header ready for the next click. */
  method FailedToggle(clientId: Option<string>, month: string, year: string, initialStatus: string, outcome: Outcome)
    returns (final: string, ready: bool)
    requires outcome != Responded(true)
    ensures final == ToUpper(initialStatus) && ready
  {
    var header := new StatusToggle(clientId, month, year, initialStatus);
    var request := header.ToggleStatus(outcome);
    final := header.status;
    ready := !header.isUpdating;
  }

  /** A second click while the first request is in flight sends nothing. */
  method DoubleClick(clientId: Option<string>, month: string, year: string, initialStatus: string)
    returns (first: Option<StatusRequest>, second: Option<StatusRequest>)
    ensures first == Some(StatusRequest(clientId, month, year, Toggled(ToUpper(initialStatus))))
    ensures second.None?
  {
    var header := new StatusToggle(clientId, month, year, initialStatus);
    first := header.BeginToggle();
    second := header.BeginToggle();
  }
}
