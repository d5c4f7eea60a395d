// The project editor of the invoice page: loading the form, the dirty check,
// reordering and removing images, the update payload and the submit guards.

module ProjectModal {
  import opened Wrappers
  import opened JsText
  import opened Projects
  import InvoicePage

  /** The editor's fields; `amount` is `Number` of the amount input, so an empty input reads as 0. */
  datatype Form = Form(name: string, projectType: string, amount: int, images: seq<string>)

  /** The type a new project starts with. */
  const DefaultType := "Banner"

  /** The form the editor opens with: the edited project's fields, or a blank form. */
  function LoadForm(initial: Option<Project>): (f: Form)
    ensures initial.None? ==> f.name == "" && f.projectType == DefaultType && f.amount == 0 && f.images == []
    ensures initial.Some? ==>
      && f.name == initial.value.name && f.projectType == initial.value.projectType
      && f.amount == initial.value.amount && f.images == initial.value.images
  {
    match initial
    case None => Form("", DefaultType, 0, [])
    case Some(p) => Form(p.name, p.projectType, p.amount, p.images)
  }

  // ---------------------------------------------------------------------
  // Dirty check
  // ---------------------------------------------------------------------

  /** `a.every((img, i) => img === b[i])`: an index past the end of `b` never matches, so this is "`a` is a prefix of `b`". */
  function EveryMatches(a: seq<string>, b: seq<string>): (r: bool)
    ensures r <==> a <= b
  {
    if a == [] then true
    else if b == [] then false
    else
      assert a == [a[0]] + a[1..];
      assert b == [b[0]] + b[1..];
      a[0] == b[0] && EveryMatches(a[1..], b[1..])
  }

  /** Whether the image list differs from the initial one: a different count, or some position differs. */
  function ImagesChanged(images: seq<string>, initial: seq<string>): (r: bool)
    ensures r <==> images != initial
  {
    |images| != |initial| || !EveryMatches(images, initial)
  }

  /** The dirty flag: always set for a new project; when editing, set when any field differs from the edited project. */
  function IsDirty(form: Form, initial: Option<Project>): (d: bool)
    ensures initial.None? ==> d
    ensures initial.Some? ==> (d <==> form != LoadForm(initial))
  {
    match initial
    case None => true
    case Some(p) =>
      || form.name != p.name
      || form.projectType != p.projectType
      || form.amount != p.amount
      || ImagesChanged(form.images, p.images)
  }

  /**
   * Reopening the editor on a project leaves the form clean, and setting any one
   * field makes it dirty exactly when the new value differs from the project's.
   */
  lemma FreshFormIsClean(p: Project, name: string, projectType: string, amount: int, images: seq<string>)
    ensures !IsDirty(LoadForm(Some(p)), Some(p))
    ensures IsDirty(LoadForm(Some(p)).(name := name), Some(p)) <==> name != p.name
    ensures IsDirty(LoadForm(Some(p)).(projectType := projectType), Some(p)) <==> projectType != p.projectType
    ensures IsDirty(LoadForm(Some(p)).(amount := amount), Some(p)) <==> amount != p.amount
    ensures IsDirty(LoadForm(Some(p)).(images := images), Some(p)) <==> images != p.images
  {
  }

  // ---------------------------------------------------------------------
  // Reordering images
  // ---------------------------------------------------------------------

  /** `splice(i, 1)`: the list without position `i`. */
  function RemoveAt(s: seq<string>, i: nat): (r: seq<string>)
    requires i < |s|
    ensures |r| == |s| - 1
  {
    s[..i] + s[i + 1..]
  }

  lemma RemoveAtIndex(s: seq<string>, i: nat, k: nat)
    requires i < |s| && k < |s| - 1
    ensures RemoveAt(s, i)[k] == if k < i then s[k] else s[k + 1]
  {
  }

  /** `splice(i, 0, x)`: the list with `x` inserted before position `i`. */
  function InsertAt(s: seq<string>, i: nat, x: string): (r: seq<string>)
    requires i <= |s|
    ensures |r| == |s| + 1
  {
    s[..i] + [x] + s[i..]
  }

  lemma InsertAtIndex(s: seq<string>, i: nat, x: string, k: nat)
    requires i <= |s| && k <= |s|
    ensures InsertAt(s, i, x)[k] == if k < i then s[k] else if k == i then x else s[k - 1]
  {
  }

  /** The list after dragging the image at `from` onto position `to`. */
  function Moved(s: seq<string>, from: nat, to: nat): (r: seq<string>)
    requires from < |s| && to < |s|
    ensures |r| == |s|
    ensures r[to] == s[from]
    ensures RemoveAt(r, to) == RemoveAt(s, from)
    ensures multiset(r) == multiset(s)
  {
    var rest := RemoveAt(s, from);
    var r := InsertAt(rest, to, s[from]);
    assert r[..to] == rest[..to];
    assert r[to + 1..] == rest[to..];
    assert RemoveAt(r, to) == rest[..to] + rest[to..];
    assert rest[..to] + rest[to..] == rest;
    calc {
      multiset(r);
      multiset(rest[..to]) + multiset([s[from]]) + multiset(rest[to..]);
      multiset(rest) + multiset([s[from]]);
      { assert rest == s[..from] + s[from + 1..]; }
      multiset(s[..from]) + multiset(s[from + 1..]) + multiset([s[from]]);
      { assert s == s[..from] + [s[from]] + s[from + 1..]; }
      multiset(s);
    }
    r
  }

  /** Dragging an image back to where it came from restores the list. */
  lemma {:induction false} MoveBack(s: seq<string>, from: nat, to: nat)
    requires from < |s| && to < |s|
    ensures Moved(Moved(s, from, to), to, from) == s
  {
    var m := Moved(s, from, to);
    var back := Moved(m, to, from);
    assert RemoveAt(back, from) == RemoveAt(m, to) == RemoveAt(s, from);
    assert back[from] == m[to] == s[from];
    forall k | 0 <= k < |s|
      ensures back[k] == s[k]
    {
      if k < from {
        assert RemoveAt(back, from)[k] == RemoveAt(s, from)[k];
      } else if k > from {
        assert RemoveAt(back, from)[k - 1] == RemoveAt(s, from)[k - 1];
      }
    }
  }

  /** `a.splice(from, 1)` on a fixed-size array: the tail moves one place left and the last slot goes stale. */
  method SpliceOut(a: array<string>, from: nat)
    requires from < a.Length
    modifies a
    ensures a[..a.Length - 1] == RemoveAt(old(a[..]), from)
  {
    ghost var s := a[..];
    var k := from;
    while k < a.Length - 1
      invariant from <= k <= a.Length - 1
      invariant forall i :: 0 <= i < k ==> a[i] == RemoveAt(s, from)[i]
      invariant forall i :: k <= i < a.Length ==> a[i] == s[i]
    {
      RemoveAtIndex(s, from, k);
      a[k] := a[k + 1];
      k := k + 1;
    }
  }

  /** `a.splice(to, 0, x)` into the first `a.Length - 1` slots: the tail moves one place right and `x` goes in at `to`. */
  method SpliceIn(a: array<string>, to: nat, x: string)
    requires to < a.Length
    modifies a
    ensures a[..] == InsertAt(old(a[..a.Length - 1]), to, x)
  {
    ghost var s := a[..a.Length - 1];
    var k := a.Length - 1;
    while k > to
      invariant to <= k <= a.Length - 1
      invariant forall i :: 0 <= i < k ==> a[i] == s[i]
      invariant forall i :: k < i < a.Length ==> a[i] == s[i - 1]
    {
      a[k] := a[k - 1];
      k := k - 1;
    }
    a[to] := x;
    forall i | 0 <= i < a.Length
      ensures a[i] == InsertAt(s, to, x)[i]
    {
      InsertAtIndex(s, to, x, i);
    }
  }

  /** `handleSortEnter`'s array work: copy the list, splice the dragged image out and back in at `to`. */
  method Reorder(images: seq<string>, from: nat, to: nat) returns (r: seq<string>)
    requires from < |images| && to < |images|
    ensures r == Moved(images, from, to)
  {
    var a := new string[|images|](i requires 0 <= i < |images| => images[i]);
    assert a[..] == images;
    var dragged := a[from];
    SpliceOut(a, from);
    SpliceIn(a, to, dragged);
    r := a[..];
  }

  /** `removeImage`: `filter((_, i) => i !== index)`, which drops position `index` and nothing else. */
  function WithoutIndex(s: seq<string>, index: int): (r: seq<string>)
    ensures 0 <= index < |s| ==> r == RemoveAt(s, index)
    ensures !(0 <= index < |s|) ==> r == s
  {
    if s == [] then []
    else
      var tail := WithoutIndex(s[1..], index - 1);
      assert s == [s[0]] + s[1..];
      if index == 0 then tail else [s[0]] + tail
  }

  /** The image list and the drag cursor (`dragItem.current`) of an open editor. */
  class ImageList {
    var images: seq<string>
    var dragItem: Option<nat>

    constructor (images: seq<string>)
      ensures this.images == images && dragItem.None?
    {
      this.images := images;
      dragItem := None;
    }

    /** `handleSortStart`: a drag starts at `index`. */
    method SortStart(index: nat)
      modifies this`dragItem
      ensures dragItem == Some(index)
    {
      dragItem := Some(index);
    }

    /** `handleSortEnter`: the dragged image moves onto `index`, which becomes the new drag position. */
    method SortEnter(index: nat)
      requires index < |images|
      requires dragItem.Some? ==> dragItem.value < |images|
      modifies this
      ensures old(dragItem).None? || old(dragItem) == Some(index) ==>
        images == old(images) && dragItem == old(dragItem)
      ensures old(dragItem).Some? && old(dragItem).value != index ==>
        images == Moved(old(images), old(dragItem).value, index) && dragItem == Some(index)
    {
      if dragItem.None? || dragItem.value == index {
        return;
      }
      images := Reorder(images, dragItem.value, index);
      dragItem := Some(index);
    }

    /** `handleSortEnd`: the drag is over. */
    method SortEnd()
      modifies this`dragItem
      ensures dragItem.None?
    {
      dragItem := None;
    }

    /** `removeImage`. */
    method RemoveImage(index: int)
      modifies this`images
      ensures images == WithoutIndex(old(images), index)
    {
      images := WithoutIndex(images, index);
    }

    /** A file finished loading: its data URL is appended. */
    method AddLoaded(dataUrl: string)
      modifies this`images
      ensures images == old(images) + [dataUrl]
    {
      images := images + [dataUrl];
    }
  }

  /** A drag that enters a position and then the one it came from leaves the images as they were. */
  method DragThereAndBack(images: seq<string>, from: nat, to: nat) returns (final: seq<string>)
    requires from < |images| && to < |images|
    ensures final == images
  {
    var list := new ImageList(images);
    list.SortStart(from);
    list.SortEnter(to);
    list.SortEnter(from);
    list.SortEnd();
    if from != to {
      MoveBack(images, from, to);
    }
    final := list.images;
  }

  // ---------------------------------------------------------------------
  // Submitting
  // ---------------------------------------------------------------------

  /** The `updates` object: a scalar field is present only when it changed; the images always travel. */
  datatype Updates = Updates(name: Option<string>, projectType: Option<string>, amount: Option<int>, images: seq<string>)

  function BuildUpdates(form: Form, initial: Project): (u: Updates)
    ensures u.name.Some? <==> form.name != initial.name
    ensures u.projectType.Some? <==> form.projectType != initial.projectType
    ensures u.amount.Some? <==> form.amount != initial.amount
    ensures u.name.Some? ==> u.name.value == form.name
    ensures u.projectType.Some? ==> u.projectType.value == form.projectType
    ensures u.amount.Some? ==> u.amount.value == form.amount
    ensures u.images == form.images
  {
    Updates(
      if form.name != initial.name then Some(form.name) else None,
      if form.projectType != initial.projectType then Some(form.projectType) else None,
      if form.amount != initial.amount then Some(form.amount) else None,
      form.images)
  }

  /** What the payload means to its receiver: absent fields keep the stored value, the image list is replaced. */
  function ApplyUpdates(p: Project, u: Updates): Project {
    Project(p.id, u.name.GetOr(p.name), u.projectType.GetOr(p.projectType), u.amount.GetOr(p.amount), u.images)
  }

  /** Applying the payload to the edited project yields exactly the form's contents. */
  lemma UpdatesRoundTrip(form: Form, p: Project)
    ensures ApplyUpdates(p, BuildUpdates(form, p)) == Project(p.id, form.name, form.projectType, form.amount, form.images)
  {
  }

  /** A clean form would carry no scalar field, and the image list it carries is the stored one. */
  lemma CleanFormChangesNothing(form: Form, p: Project)
    requires !IsDirty(form, Some(p))
    ensures BuildUpdates(form, p) == Updates(None, None, None, p.images)
    ensures ApplyUpdates(p, BuildUpdates(form, p)) == p
  {
  }

  /** The largest create payload the editor sends: 90 MiB. */
  const PayloadLimit: nat := 90 * 1024 * 1024

  /** The body of `POST /api/update/project`. */
  datatype UpdateRequest = UpdateRequest(id: int, clientId: Option<string>, invoiceId: Option<string>, updates: Updates)

  /** The body of `POST /api/new/project`. */
  datatype CreateRequest = CreateRequest(clientId: string, invoiceId: string, name: string, projectType: string, amount: int, images: seq<string>)

  /** What pressing submit does. */
  datatype SubmitStep =
    | AlreadySubmitting
    | NothingChanged
    | MissingIds
    | TooLarge
    | SendUpdate(update: UpdateRequest)
    | SendCreate(create: CreateRequest)

  /** `handleSubmit` up to the request; `payloadSize` is the UTF-8 length of the create body. */
  function Submit(form: Form, initial: Option<Project>, clientId: Option<string>, invoiceId: Option<string>,
                  isSubmitting: bool, payloadSize: nat): (step: SubmitStep)
    ensures isSubmitting ==> step == AlreadySubmitting
    ensures step.SendUpdate? <==> !isSubmitting && initial.Some? && IsDirty(form, initial)
    ensures step.SendCreate? <==>
      !isSubmitting && initial.None? && Present(clientId) && Present(invoiceId) && payloadSize <= 94371840
    ensures step == NothingChanged <==> !isSubmitting && initial.Some? && !IsDirty(form, initial)
    ensures step == TooLarge <==>
      !isSubmitting && initial.None? && Present(clientId) && Present(invoiceId) && payloadSize > 94371840
    ensures step == MissingIds <==> !isSubmitting && initial.None? && !(Present(clientId) && Present(invoiceId))
    ensures step.SendUpdate? ==>
      step.update == UpdateRequest(initial.value.id, clientId, invoiceId, BuildUpdates(form, initial.value))
    ensures step.SendCreate? ==>
      step.create == CreateRequest(clientId.value, invoiceId.value, form.name, form.projectType, form.amount, form.images)
  {
    if isSubmitting then AlreadySubmitting
    else match initial
      case Some(p) =>
        if !IsDirty(form, initial) then NothingChanged
        else SendUpdate(UpdateRequest(p.id, clientId, invoiceId, BuildUpdates(form, p)))
      case None =>
        if !Present(clientId) || !Present(invoiceId) then MissingIds
        else if payloadSize > PayloadLimit then TooLarge
        else SendCreate(CreateRequest(clientId.value, invoiceId.value, form.name, form.projectType, form.amount, form.images))
  }

  /** How a request ended: a parsed response (with the created id), or a network or JSON failure. */
  datatype Reply = Reply(ok: bool, projectId: int) | Failed

  /** What the editor hands to `onSubmit` once its request has finished, if anything. */
  function Completion(step: SubmitStep, form: Form, reply: Reply): (sub: Option<InvoicePage.Submission>)
    ensures sub.Some? <==> (step.SendUpdate? || step.SendCreate?) && reply.Reply? && reply.ok
    ensures sub.Some? ==> sub.value.Identified?
    ensures sub.Some? && step.SendUpdate? ==>
      sub.value.project == Project(step.update.id, form.name, form.projectType, form.amount, form.images)
    ensures sub.Some? && step.SendCreate? ==>
      sub.value.project == Project(reply.projectId, form.name, form.projectType, form.amount, form.images)
  {
    match (step, reply)
    case (SendUpdate(r), Reply(true, _)) =>
      Some(InvoicePage.Identified(Project(r.id, form.name, form.projectType, form.amount, form.images)))
    case (SendCreate(_), Reply(true, id)) =>
      Some(InvoicePage.Identified(Project(id, form.name, form.projectType, form.amount, form.images)))
    case _ => None
  }

  /**
   * As written, the invoice page opens the editor without `clientId` and
   * `invoiceId`, so adding a project never gets past the id guard.
   */
  lemma PageNeverCreates(form: Form, size: nat)
    ensures Submit(form, None, None, None, false, size) == MissingIds
  {
  }

  /**
   * Handed the page's client id and invoice key, the editor sends the new
   * project whenever it fits under the size limit.
   */
  lemma PageWithIdsCreates(form: Form, clientId: string, invoiceKey: string, size: nat)
    requires clientId != "" && invoiceKey != "" && size <= PayloadLimit
    ensures Submit(form, None, Some(clientId), Some(invoiceKey), false, size)
            == SendCreate(CreateRequest(clientId, invoiceKey, form.name, form.projectType, form.amount, form.images))
  {
  }

  /** An edit the server accepted shows up on the page as the payload's reading of the edited project. */
  lemma AcceptedEditIsShown(ps: seq<Project>, form: Form, p: Project, clientId: Option<string>,
                            invoiceId: Option<string>, size: nat, now: int)
    requires IsDirty(form, Some(p)) && InvoicePage.HasId(ps, p.id)
    ensures
      var step := Submit(form, Some(p), clientId, invoiceId, false, size);
      var sub := Completion(step, form, Reply(true, 0));
      && sub.Some?
      && InvoicePage.AddProject(ps, sub.value, now)
         == InvoicePage.EditProject(ps, ApplyUpdates(p, step.update.updates))
  {
    UpdatesRoundTrip(form, p);
  }

  /**
   * As written, a project the server created is handed back with its new id, and
   * the page's `handleAddProject` treats any project with an id as an edit: no
   * project on the page has that id, so the list does not change.
   */
  lemma CreatedProjectIsDropped(ps: seq<Project>, form: Form, clientId: Option<string>, invoiceId: Option<string>,
                                size: nat, newId: int, now: int)
    requires Present(clientId) && Present(invoiceId) && size <= PayloadLimit
    requires forall i :: 0 <= i < |ps| ==> ps[i].id != newId
    ensures
      var sub := Completion(Submit(form, None, clientId, invoiceId, false, size), form, Reply(true, newId));
      sub.Some? && InvoicePage.AddProject(ps, sub.value, now) == ps
  {
    var sub := Completion(Submit(form, None, clientId, invoiceId, false, size), form, Reply(true, newId));
    InvoicePage.EditUnknownIdIsNoOp(ps, sub.value.project);
  }

  /** With the corrected page handler, the created project appears first, under the server's id. */
  lemma CreatedProjectIsShown(ps: seq<Project>, form: Form, clientId: Option<string>, invoiceId: Option<string>,
                              size: nat, newId: int, now: int)
    requires Present(clientId) && Present(invoiceId) && size <= PayloadLimit
    requires forall i :: 0 <= i < |ps| ==> ps[i].id != newId
    ensures
      var sub := Completion(Submit(form, None, clientId, invoiceId, false, size), form, Reply(true, newId));
      && sub.Some?
      && InvoicePage.UpsertProject(ps, sub.value, now)
         == [Project(newId, form.name, form.projectType, form.amount, form.images)] + ps
  {
  }
}
