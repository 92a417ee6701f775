/** Listing photos: two storage objects and one table row each, written and removed in separate steps. */
module Photos {
  import opened Values

  const MAX_PHOTOS_PER_LISTING := 3
  const ID_LENGTH := 36

  datatype Bucket = RawBucket | PubBucket

  datatype Object = Object(bucket: Bucket, key: string)

  function RawObject(id: string, ext: string): Object {
    Object(RawBucket, "listing_photos/" + id + ext)
  }

  function PubObject(id: string): Object {
    Object(PubBucket, "listing_photos/" + id + ".jpg")
  }

  /** Ids of one length keep their keys apart, whatever the extensions are. */
  lemma KeysDiffer(id: string, ext: string, other: string, otherExt: string)
    requires |id| == |other| && id != other
    ensures "listing_photos/" + id + ext != "listing_photos/" + other + otherExt
  {
    var k, k' := "listing_photos/" + id + ext, "listing_photos/" + other + otherExt;
    assert k[15..15 + |id|] == id && k'[15..15 + |id|] == other;
  }

  // ----- rows -----

  datatype Row = Row(listing: nat, ext: string, order: int)

  type Rows = map<string, Row>

  datatype Listing = Listing(owner: string, deleted: bool)

  function OfListing(rows: Rows, listing: nat): set<string> {
    set id | id in rows && rows[id].listing == listing
  }

  function Orders(rows: Rows, listing: nat): set<int> {
    set id | id in rows && rows[id].listing == listing :: rows[id].order
  }

  ghost function Member<T>(s: set<T>): (x: T)
    requires s != {}
    ensures x in s
  {
    var x :| x in s;
    x
  }

  lemma {:induction false} GreatestExists(orders: set<int>)
    requires orders != {}
    ensures exists m :: m in orders && forall x :: x in orders ==> x <= m
  {
    var x := Member(orders);
    var rest := orders - {x};
    assert orders == rest + {x};
    if rest != {} {
      GreatestExists(rest);
      var m :| m in rest && forall y :: y in rest ==> y <= m;
      assert Max(x, m) in orders && forall y :: y in orders ==> y <= Max(x, m);
    } else {
      assert x in orders && forall y :: y in orders ==> y <= x;
    }
  }

  /** COALESCE(MAX(order), -1) */
  function MaxOrder(orders: set<int>): (m: int)
    ensures orders == {} ==> m == -1
    ensures orders != {} ==> m in orders && forall x :: x in orders ==> x <= m
  {
    if orders == {} then -1
    else
      GreatestExists(orders);
      var m :| m in orders && forall x :: x in orders ==> x <= m;
      m
  }

  function NextOrder(rows: Rows, listing: nat): (o: int)
    ensures forall id :: id in OfListing(rows, listing) ==> rows[id].order < o
  {
    assert forall id :: id in OfListing(rows, listing) ==> rows[id].order in Orders(rows, listing);
    MaxOrder(Orders(rows, listing)) + 1
  }

  /** addPhotoToListing: the row is added unless the listing already has its limit. */
  function AddRow(rows: Rows, listing: nat, id: string, ext: string): Option<Rows> {
    if |OfListing(rows, listing)| >= MAX_PHOTOS_PER_LISTING then None
    else Some(rows[id := Row(listing, ext, NextOrder(rows, listing))])
  }

  predicate Owns(listings: map<nat, Listing>, listing: nat, user: string) {
    listing in listings && listings[listing].owner == user && !listings[listing].deleted
  }

  // ----- uploads and their objects -----

  /** How far one photo has come. `Cleaning` says which of its two deletes are still to be answered. */
  datatype Stage =
    | Begun
    | RawStored
    | BothStored
    | Kept
    | Cleaning(raw: bool, pub: bool)

  datatype Photo = Photo(listing: nat, ext: string, stage: Stage)

  datatype State = State(
    listings: map<nat, Listing>,
    rows: Rows,
    storage: set<Object>,
    photos: map<string, Photo>,
    leaked: set<Object>,
    strays: set<Object>
  )

  const EMPTY := State(map[], map[], {}, map[], {}, {})

  /**
   * One atomic step. A put that throws may still have stored its object (`stored`), and a delete that throws
   * may still have removed it (`removed`); `ok` is what the caller sees.
   */
  datatype Event =
    | EditListings(listings: map<nat, Listing>)
    | Begin(id: string, listing: nat, ext: string)
    | PutRaw(id: string, ok: bool, stored: bool)
    | PutPub(id: string, ok: bool, stored: bool)
    | Commit(id: string, ok: bool)
    | DeleteRow(id: string, user: string)
    | Delete(id: string, bucket: Bucket, ok: bool, removed: bool)

  predicate At(s: State, id: string, stage: Stage) {
    id in s.photos && s.photos[id].stage == stage
  }

  predicate Deleting(s: State, id: string, bucket: Bucket) {
    id in s.photos && s.photos[id].stage.Cleaning?
    && if bucket == RawBucket then s.photos[id].stage.raw else s.photos[id].stage.pub
  }

  predicate Enabled(s: State, e: Event) {
    match e
    case EditListings(_) => true
    case Begin(id, _, _) => id !in s.photos && |id| == ID_LENGTH
    case PutRaw(id, ok, stored) => At(s, id, Begun) && (ok ==> stored)
    case PutPub(id, ok, stored) => At(s, id, RawStored) && (ok ==> stored)
    case Commit(id, _) => At(s, id, BothStored)
    case DeleteRow(_, _) => true
    case Delete(id, bucket, ok, removed) => Deleting(s, id, bucket) && (ok ==> removed)
  }

  function Move(s: State, id: string, stage: Stage): State
    requires id in s.photos
  {
    s.(photos := s.photos[id := s.photos[id].(stage := stage)])
  }

  function Store(s: State, o: Object, ok: bool, stored: bool): State {
    var s' := if stored then s.(storage := s.storage + {o}) else s;
    if stored && !ok then s'.(strays := s.strays + {o}) else s'
  }

  function Remove(s: State, o: Object, ok: bool, removed: bool): State {
    if removed then s.(storage := s.storage - {o}) else s.(leaked := s.leaked + {o})
  }

  function ObjectOf(s: State, id: string, bucket: Bucket): Object
    requires id in s.photos
  {
    if bucket == RawBucket then RawObject(id, s.photos[id].ext) else PubObject(id)
  }

  function AfterDelete(stage: Stage, bucket: Bucket): Stage
    requires stage.Cleaning?
  {
    if bucket == RawBucket then stage.(raw := false) else stage.(pub := false)
  }

  function Matches(s: State, id: string, user: string): bool {
    id in s.rows && id in s.photos && Owns(s.listings, s.rows[id].listing, user)
  }

  function Apply(s: State, e: Event): State
    requires Enabled(s, e)
  {
    match e
    case EditListings(listings) => s.(listings := listings)
    case Begin(id, listing, ext) => s.(photos := s.photos[id := Photo(listing, ext, Begun)])
    case PutRaw(id, ok, stored) =>
      Store(Move(s, id, if ok then RawStored else Cleaning(false, false)), ObjectOf(s, id, RawBucket), ok, stored)
    case PutPub(id, ok, stored) =>
      Store(Move(s, id, if ok then BothStored else Cleaning(true, false)), ObjectOf(s, id, PubBucket), ok, stored)
    case Commit(id, ok) =>
      var photo := s.photos[id];
      var added := if ok then AddRow(s.rows, photo.listing, id, photo.ext) else None;
      if added.Some? then Move(s, id, Kept).(rows := added.value) else Move(s, id, Cleaning(true, true))
    case DeleteRow(id, user) =>
      if Matches(s, id, user) then Move(s, id, Cleaning(true, true)).(rows := s.rows - {id}) else s
    case Delete(id, bucket, ok, removed) =>
      Remove(Move(s, id, AfterDelete(s.photos[id].stage, bucket)), ObjectOf(s, id, bucket), ok, removed)
  }

  ghost predicate IsRun(s: State, events: seq<Event>)
    decreases |events|
  {
    events == [] || (Enabled(s, events[0]) && IsRun(Apply(s, events[0]), events[1..]))
  }

  ghost function After(s: State, events: seq<Event>): State
    requires IsRun(s, events)
    decreases |events|
  {
    if events == [] then s else After(Apply(s, events[0]), events[1..])
  }

  // ----- what holds of one photo -----

  predicate Marked(s: State, o: Object) {
    o in s.leaked || o in s.strays
  }

  /** The row is there exactly at `Kept`, and it carries the photo's own listing and extension. */
  predicate RowAgrees(s: State, id: string)
    requires id in s.photos
  {
    if s.photos[id].stage.Kept?
    then id in s.rows && s.rows[id].listing == s.photos[id].listing && s.rows[id].ext == s.photos[id].ext
    else id !in s.rows
  }

  predicate RawExpected(stage: Stage) {
    stage.RawStored? || stage.BothStored? || stage.Kept? || (stage.Cleaning? && stage.raw)
  }

  predicate PubExpected(stage: Stage) {
    stage.BothStored? || stage.Kept? || (stage.Cleaning? && stage.pub)
  }

  /** An object is in storage when its photo's stage says so, and otherwise exactly when it was left over. */
  predicate ObjectAgrees(s: State, o: Object, expected: bool, untouched: bool) {
    (o in s.storage <==> expected || Marked(s, o)) && (expected || untouched ==> !Marked(s, o))
  }

  predicate ObjectsAgree(s: State, id: string)
    requires id in s.photos
  {
    var stage := s.photos[id].stage;
    && ObjectAgrees(s, RawObject(id, s.photos[id].ext), RawExpected(stage), stage.Begun?)
    && ObjectAgrees(s, PubObject(id), PubExpected(stage), stage.Begun? || stage.RawStored?)
  }

  predicate PhotoAgrees(s: State, id: string)
    requires id in s.photos
  {
    |id| == ID_LENGTH && RowAgrees(s, id) && ObjectsAgree(s, id)
  }

  ghost predicate Known(s: State, o: Object) {
    exists id :: id in s.photos && IsObjectOf(s, o, id)
  }

  predicate IsObjectOf(s: State, o: Object, id: string)
    requires id in s.photos
  {
    o == RawObject(id, s.photos[id].ext) || o == PubObject(id)
  }

  ghost predicate AllKnown(s: State) {
    forall o :: o in s.storage || Marked(s, o) ==> Known(s, o)
  }

  ghost predicate Consistent(s: State) {
    && (forall id :: id in s.photos ==> PhotoAgrees(s, id))
    && (forall id :: id in s.rows ==> id in s.photos)
    && AllKnown(s)
  }

  // ----- one step -----

  function Subject(e: Event): Option<string> {
    if e.EditListings? then None else Some(e.id)
  }

  ghost predicate SameObject(s: State, s': State, o: Object) {
    (o in s'.storage <==> o in s.storage) && (o in s'.leaked <==> o in s.leaked) && (o in s'.strays <==> o in s.strays)
  }

  /** A step changes no object but the two of its own photo. */
  lemma OtherObjects(s: State, e: Event, o: Object)
    requires Enabled(s, e)
    requires Subject(e).Some? && e.id in s.photos ==> !IsObjectOf(s, o, e.id)
    ensures SameObject(s, Apply(s, e), o)
  {
  }

  lemma OtherPhotos(s: State, e: Event, id: string)
    requires Enabled(s, e) && id in s.photos && Subject(e) != Some(id)
    ensures id in Apply(s, e).photos && Apply(s, e).photos[id] == s.photos[id]
    ensures id in Apply(s, e).rows <==> id in s.rows
    ensures id in s.rows ==> Apply(s, e).rows[id] == s.rows[id]
  {
  }

  lemma OthersAgree(s: State, e: Event, id: string)
    requires Consistent(s) && Enabled(s, e) && id in s.photos && Subject(e) != Some(id)
    ensures id in Apply(s, e).photos && PhotoAgrees(Apply(s, e), id)
  {
    assert PhotoAgrees(s, id);
    OtherPhotos(s, e, id);
    var ext := s.photos[id].ext;
    if Subject(e).Some? && e.id in s.photos {
      assert PhotoAgrees(s, e.id);
      KeysDiffer(id, ext, e.id, s.photos[e.id].ext);
      KeysDiffer(id, ".jpg", e.id, ".jpg");
    }
    OtherObjects(s, e, RawObject(id, ext));
    OtherObjects(s, e, PubObject(id));
  }

  /** A fresh id owns no object yet. */
  lemma FreshObjects(s: State, id: string, ext: string)
    requires Consistent(s) && id !in s.photos && |id| == ID_LENGTH
    ensures RawObject(id, ext) !in s.storage && !Marked(s, RawObject(id, ext))
    ensures PubObject(id) !in s.storage && !Marked(s, PubObject(id))
  {
    forall other | other in s.photos
      ensures !IsObjectOf(s, RawObject(id, ext), other) && !IsObjectOf(s, PubObject(id), other)
    {
      assert PhotoAgrees(s, other);
      KeysDiffer(id, ext, other, s.photos[other].ext);
      KeysDiffer(id, ".jpg", other, ".jpg");
    }
    assert !Known(s, RawObject(id, ext)) && !Known(s, PubObject(id));
  }

  lemma BeginAgrees(s: State, e: Event)
    requires Consistent(s) && Enabled(s, e) && e.Begin?
    ensures PhotoAgrees(Apply(s, e), e.id)
  {
    FreshObjects(s, e.id, e.ext);
  }

  lemma PutAgrees(s: State, e: Event)
    requires Consistent(s) && Enabled(s, e) && (e.PutRaw? || e.PutPub?)
    ensures PhotoAgrees(Apply(s, e), e.id)
  {
    assert PhotoAgrees(s, e.id);
  }

  lemma RowStepAgrees(s: State, e: Event)
    requires Consistent(s) && Enabled(s, e) && (e.Commit? || e.DeleteRow?) && e.id in s.photos
    ensures PhotoAgrees(Apply(s, e), e.id)
  {
    assert PhotoAgrees(s, e.id);
  }

  lemma DeleteAgrees(s: State, e: Event)
    requires Consistent(s) && Enabled(s, e) && e.Delete?
    ensures PhotoAgrees(Apply(s, e), e.id)
  {
    assert PhotoAgrees(s, e.id);
  }

  lemma SubjectAgrees(s: State, e: Event)
    requires Consistent(s) && Enabled(s, e) && Subject(e).Some? && e.id in Apply(s, e).photos
    ensures PhotoAgrees(Apply(s, e), e.id)
  {
    match e
    case Begin(_, _, _) => BeginAgrees(s, e);
    case PutRaw(_, _, _) => PutAgrees(s, e);
    case PutPub(_, _, _) => PutAgrees(s, e);
    case Commit(_, _) => RowStepAgrees(s, e);
    case DeleteRow(_, _) => RowStepAgrees(s, e);
    case Delete(_, _, _, _) => DeleteAgrees(s, e);
  }

  lemma PhotosStay(s: State, e: Event, id: string)
    requires Enabled(s, e) && id in s.photos
    ensures id in Apply(s, e).photos && Apply(s, e).photos[id].ext == s.photos[id].ext
  {
  }

  lemma NewPhotos(s: State, e: Event, id: string)
    requires Enabled(s, e) && id in Apply(s, e).photos && id !in s.photos
    ensures Subject(e) == Some(id)
  {
  }

  lemma RowsHavePhotos(s: State, e: Event, id: string)
    requires Consistent(s) && Enabled(s, e) && id in Apply(s, e).rows
    ensures id in Apply(s, e).photos
  {
  }

  lemma ObjectsKnown(s: State, e: Event, o: Object)
    requires Consistent(s) && Enabled(s, e)
    requires o in Apply(s, e).storage || Marked(Apply(s, e), o)
    ensures Known(Apply(s, e), o)
  {
    if Known(s, o) {
      var id :| id in s.photos && IsObjectOf(s, o, id);
      PhotosStay(s, e, id);
      assert IsObjectOf(Apply(s, e), o, id);
    } else {
      OtherObjects(s, e, o);
    }
  }

  lemma StepConsistent(s: State, e: Event)
    requires Consistent(s) && Enabled(s, e)
    ensures Consistent(Apply(s, e))
  {
    forall id | id in Apply(s, e).photos ensures PhotoAgrees(Apply(s, e), id) {
      if Subject(e) == Some(id) {
        SubjectAgrees(s, e);
      } else {
        if id !in s.photos { NewPhotos(s, e, id); }
        OthersAgree(s, e, id);
      }
    }
    forall id | id in Apply(s, e).rows ensures id in Apply(s, e).photos { RowsHavePhotos(s, e, id); }
    forall o | o in Apply(s, e).storage || Marked(Apply(s, e), o) ensures Known(Apply(s, e), o) {
      ObjectsKnown(s, e, o);
    }
  }

  // ----- the rows of a listing -----

  ghost predicate Limited(rows: Rows) {
    && (forall l :: |OfListing(rows, l)| <= MAX_PHOTOS_PER_LISTING)
    && (forall a, b :: a in rows && b in rows && a != b && rows[a].listing == rows[b].listing ==>
          rows[a].order != rows[b].order)
  }

  lemma AddRowCounts(rows: Rows, id: string, row: Row, l: nat)
    requires id !in rows
    ensures OfListing(rows[id := row], l) == OfListing(rows, l) + (if row.listing == l then {id} else {})
  {
  }

  lemma AddRowLimited(rows: Rows, id: string, row: Row)
    requires Limited(rows) && id !in rows && |OfListing(rows, row.listing)| < MAX_PHOTOS_PER_LISTING
    requires forall a :: a in OfListing(rows, row.listing) ==> rows[a].order < row.order
    ensures Limited(rows[id := row])
  {
    var added := rows[id := row];
    forall l ensures |OfListing(added, l)| <= MAX_PHOTOS_PER_LISTING {
      AddRowCounts(rows, id, row, l);
    }
    assert forall a :: a in rows && rows[a].listing == row.listing ==> a in OfListing(rows, row.listing);
  }

  lemma DeleteRowLimited(rows: Rows, id: string)
    requires Limited(rows)
    ensures Limited(rows - {id})
  {
    forall l ensures |OfListing(rows - {id}, l)| <= MAX_PHOTOS_PER_LISTING {
      SubsetSize(OfListing(rows - {id}, l), OfListing(rows, l));
    }
  }

  lemma StepLimited(s: State, e: Event)
    requires Consistent(s) && Limited(s.rows) && Enabled(s, e)
    ensures Limited(Apply(s, e).rows)
  {
    if e.Commit? && e.ok {
      assert PhotoAgrees(s, e.id);
      var photo := s.photos[e.id];
      if |OfListing(s.rows, photo.listing)| < MAX_PHOTOS_PER_LISTING {
        AddRowLimited(s.rows, e.id, Row(photo.listing, photo.ext, NextOrder(s.rows, photo.listing)));
      }
    } else if e.DeleteRow? && Matches(s, e.id, e.user) {
      DeleteRowLimited(s.rows, e.id);
    } else {
      assert Apply(s, e).rows == s.rows;
    }
  }

  // ----- over every run -----

  lemma {:induction false} RunKeeps(s: State, events: seq<Event>)
    requires Consistent(s) && Limited(s.rows) && IsRun(s, events)
    ensures Consistent(After(s, events)) && Limited(After(s, events).rows)
    decreases |events|
  {
    if events != [] {
      StepConsistent(s, events[0]);
      StepLimited(s, events[0]);
      RunKeeps(Apply(s, events[0]), events[1..]);
    }
  }

  lemma EmptyIsConsistent()
    ensures Consistent(EMPTY) && Limited(EMPTY.rows)
  {
    assert forall l :: OfListing(EMPTY.rows, l) == {};
  }

  /** Whatever uploads, failures and deletes interleave, a row's two objects are in storage. */
  lemma RowsHaveTheirObjects(events: seq<Event>, id: string)
    requires IsRun(EMPTY, events) && id in After(EMPTY, events).rows
    ensures var s := After(EMPTY, events);
            RawObject(id, s.rows[id].ext) in s.storage && PubObject(id) in s.storage
  {
    EmptyIsConsistent();
    RunKeeps(EMPTY, events);
    assert PhotoAgrees(After(EMPTY, events), id);
  }

  /** A listing never has more than three rows, and their orders differ. */
  lemma ListingsStayLimited(events: seq<Event>, listing: nat)
    requires IsRun(EMPTY, events)
    ensures var rows := After(EMPTY, events).rows;
            && |OfListing(rows, listing)| <= 3
            && forall a, b :: a in OfListing(rows, listing) && b in OfListing(rows, listing) && a != b
                 ==> rows[a].order != rows[b].order
  {
    EmptyIsConsistent();
    RunKeeps(EMPTY, events);
  }

  /**
   * `id` is a new row of the listing behind all its others, with order 0 if there are none and otherwise one more than
   * the greatest; and no other row changed.
   */
  ghost predicate Appended(rows: Rows, rows': Rows, listing: nat, id: string) {
    && id !in rows && id in rows' && rows'[id].listing == listing && rows' - {id} == rows
    && (forall other :: other in rows && rows[other].listing == listing ==> rows[other].order < rows'[id].order)
    && (if exists other :: other in rows && rows[other].listing == listing
        then exists other :: other in rows && rows[other].listing == listing && rows[other].order + 1 == rows'[id].order
        else rows'[id].order == 0)
  }

  lemma NextOrderIsOneMore(rows: Rows, listing: nat)
    ensures if exists other :: other in rows && rows[other].listing == listing
            then exists other :: other in rows && rows[other].listing == listing
                                 && rows[other].order + 1 == NextOrder(rows, listing)
            else NextOrder(rows, listing) == 0
  {
    var orders := Orders(rows, listing);
    if other :| other in rows && rows[other].listing == listing {
      assert rows[other].order in orders;
    }
  }

  lemma CommitAppends(s: State, id: string, ok: bool)
    requires Consistent(s) && At(s, id, BothStored)
    ensures var listing, rows' := s.photos[id].listing, Apply(s, Commit(id, ok)).rows;
            if ok && |OfListing(s.rows, listing)| < 3 then Appended(s.rows, rows', listing, id)
            else rows' == s.rows && id !in rows'
  {
    assert PhotoAgrees(s, id);
    var photo := s.photos[id];
    var row := Row(photo.listing, photo.ext, NextOrder(s.rows, photo.listing));
    assert s.rows[id := row] - {id} == s.rows;
    NextOrderIsOneMore(s.rows, photo.listing);
    forall other | other in s.rows && s.rows[other].listing == photo.listing ensures s.rows[other].order < row.order {
      assert other in OfListing(s.rows, photo.listing);
    }
  }

  /**
   * In every run a commit adds a row exactly when the database answers and the listing has room, and the new photo
   * sorts last.
   */
  lemma NewPhotoSortsLast(events: seq<Event>, id: string, ok: bool)
    requires IsRun(EMPTY, events) && At(After(EMPTY, events), id, BothStored)
    ensures var s := After(EMPTY, events);
            var listing, rows' := s.photos[id].listing, Apply(s, Commit(id, ok)).rows;
            if ok && |OfListing(s.rows, listing)| < 3 then Appended(s.rows, rows', listing, id)
            else rows' == s.rows && id !in rows'
  {
    EmptyIsConsistent();
    RunKeeps(EMPTY, events);
    CommitAppends(After(EMPTY, events), id, ok);
  }

  // ----- only the owner removes a photo -----

  /** The step is a delete of this row by the user who owns its listing at that moment. */
  predicate OwnerDeletes(s: State, e: Event, id: string) {
    && e.DeleteRow? && e.id == id && id in s.rows && s.rows[id].listing in s.listings
    && s.listings[s.rows[id].listing].owner == e.user && !s.listings[s.rows[id].listing].deleted
  }

  /** A row goes exactly when its listing's owner deletes it, and until then it does not change. */
  lemma RowStep(s: State, e: Event, id: string)
    requires Consistent(s) && Enabled(s, e) && id in s.rows
    ensures id !in Apply(s, e).rows <==> OwnerDeletes(s, e, id)
    ensures id in Apply(s, e).rows ==> Apply(s, e).rows[id] == s.rows[id]
  {
    assert PhotoAgrees(s, id);
  }

  /** Event k of the run is a delete of the row by the owner of its listing. */
  ghost predicate DeletedByOwner(s: State, events: seq<Event>, k: nat, id: string)
    requires IsRun(s, events)
    decreases k
  {
    && k < |events|
    && if k == 0 then OwnerDeletes(s, events[0], id) else DeletedByOwner(Apply(s, events[0]), events[1..], k - 1, id)
  }

  lemma {:induction false} OnlyOwnerDeletes(s: State, events: seq<Event>, id: string) returns (k: nat)
    requires IsRun(s, events) && Consistent(s) && id in s.rows
    requires id !in After(s, events).rows || After(s, events).rows[id] != s.rows[id]
    ensures DeletedByOwner(s, events, k, id)
    decreases |events|
  {
    RowStep(s, events[0], id);
    if OwnerDeletes(s, events[0], id) {
      k := 0;
    } else {
      StepConsistent(s, events[0]);
      k := OnlyOwnerDeletes(Apply(s, events[0]), events[1..], id);
      k := k + 1;
    }
  }

  // ----- nothing is orphaned without a failed call -----

  ghost predicate AllReturned(s: State) {
    forall id :: id in s.photos ==> s.photos[id].stage == Kept || s.photos[id].stage == Cleaning(false, false)
  }

  ghost predicate OwnedByRow(s: State, o: Object) {
    exists id :: id in s.rows && (o == RawObject(id, s.rows[id].ext) || o == PubObject(id))
  }

  lemma KeptObject(s: State, id: string, o: Object)
    requires Consistent(s) && id in s.rows && (o == RawObject(id, s.rows[id].ext) || o == PubObject(id))
    ensures o in s.storage && !Marked(s, o)
  {
    assert PhotoAgrees(s, id);
  }

  lemma RestingObject(s: State, o: Object)
    requires Consistent(s) && AllReturned(s) && o in s.storage
    ensures OwnedByRow(s, o) || Marked(s, o)
  {
    assert Known(s, o);
    var id :| id in s.photos && IsObjectOf(s, o, id);
    assert PhotoAgrees(s, id);
    if s.photos[id].stage.Kept? {
      assert id in s.rows && s.rows[id].ext == s.photos[id].ext;
    }
  }

  lemma MarkedObject(s: State, o: Object)
    requires Consistent(s) && Marked(s, o)
    ensures o in s.storage
  {
    assert Known(s, o);
    var id :| id in s.photos && IsObjectOf(s, o, id);
    assert PhotoAgrees(s, id);
  }

  /**
   * Once every call has returned, an object is in storage exactly when a row owns it, its cleanup delete failed,
   * or the upload that failed had stored it; and no object is both owned and left over.
   */
  lemma OrphansExplained(events: seq<Event>, o: Object)
    requires IsRun(EMPTY, events) && AllReturned(After(EMPTY, events))
    ensures var s := After(EMPTY, events);
            && (o in s.storage <==> OwnedByRow(s, o) || o in s.leaked || o in s.strays)
            && !(OwnedByRow(s, o) && (o in s.leaked || o in s.strays))
  {
    EmptyIsConsistent();
    RunKeeps(EMPTY, events);
    var s := After(EMPTY, events);
    if o in s.storage { RestingObject(s, o); }
    if Marked(s, o) { MarkedObject(s, o); }
    if OwnedByRow(s, o) {
      var id :| id in s.rows && (o == RawObject(id, s.rows[id].ext) || o == PubObject(id));
      KeptObject(s, id, o);
    }
  }

  /** A failed upload stores nothing. */
  predicate Honest(e: Event) {
    match e
    case PutRaw(_, ok, stored) => stored == ok
    case PutPub(_, ok, stored) => stored == ok
    case _ => true
  }

  lemma {:induction false} NoStrays(s: State, events: seq<Event>)
    requires IsRun(s, events) && s.strays == {}
    requires forall k :: 0 <= k < |events| ==> Honest(events[k])
    ensures After(s, events).strays == {}
    decreases |events|
  {
    if events != [] {
      assert Honest(events[0]);
      NoStrays(Apply(s, events[0]), events[1..]);
    }
  }

  lemma LeakStep(s: State, e: Event, o: Object)
    requires Enabled(s, e)
    ensures o in Apply(s, e).leaked <==> o in s.leaked || LeavesBehind(s, e, o)
  {
  }

  /** The event is a delete of `o` that failed and left it in storage. */
  predicate LeavesBehind(s: State, e: Event, o: Object)
    requires Enabled(s, e)
  {
    e.Delete? && !e.ok && !e.removed && o == ObjectOf(s, e.id, e.bucket)
  }

  /** Event k of the run is a delete of `o` that failed and left it. */
  ghost predicate FailedDelete(s: State, events: seq<Event>, k: nat, o: Object)
    requires IsRun(s, events)
    decreases k
  {
    && k < |events|
    && if k == 0 then LeavesBehind(s, events[0], o) else FailedDelete(Apply(s, events[0]), events[1..], k - 1, o)
  }

  lemma {:induction false} LeaksAreFailedDeletes(s: State, events: seq<Event>, o: Object) returns (k: nat)
    requires IsRun(s, events) && o in After(s, events).leaked && o !in s.leaked
    ensures FailedDelete(s, events, k, o)
    decreases |events|
  {
    assert events != [];
    LeakStep(s, events[0], o);
    if o in Apply(s, events[0]).leaked {
      k := 0;
    } else {
      k := LeaksAreFailedDeletes(Apply(s, events[0]), events[1..], o);
      k := k + 1;
    }
  }

  lemma {:induction false} LeaksStay(s: State, events: seq<Event>, o: Object)
    requires IsRun(s, events) && o in s.leaked
    ensures o in After(s, events).leaked
    decreases |events|
  {
    if events != [] {
      LeakStep(s, events[0], o);
      LeaksStay(Apply(s, events[0]), events[1..], o);
    }
  }

  lemma {:induction false} FailedDeleteLeaks(s: State, events: seq<Event>, k: nat, o: Object)
    requires IsRun(s, events) && FailedDelete(s, events, k, o)
    ensures o in After(s, events).leaked
    decreases k
  {
    LeakStep(s, events[0], o);
    if k == 0 {
      LeaksStay(Apply(s, events[0]), events[1..], o);
    } else {
      FailedDeleteLeaks(Apply(s, events[0]), events[1..], k - 1, o);
    }
  }

  lemma LeakedExactlyWhen(s: State, events: seq<Event>, o: Object)
    requires IsRun(s, events) && o !in s.leaked
    ensures o in After(s, events).leaked ==> exists k: nat :: FailedDelete(s, events, k, o)
    ensures (exists k: nat :: FailedDelete(s, events, k, o)) ==> o in After(s, events).leaked
  {
    if o in After(s, events).leaked {
      var k := LeaksAreFailedDeletes(s, events, o);
      assert FailedDelete(s, events, k, o);
    }
    forall k: nat | FailedDelete(s, events, k, o) ensures o in After(s, events).leaked {
      FailedDeleteLeaks(s, events, k, o);
    }
  }

  /**
   * When failed uploads store nothing, the objects without a row are exactly those that a failed delete left
   * behind.
   */
  lemma OrphansAreFailedDeletes(events: seq<Event>, o: Object)
    requires IsRun(EMPTY, events) && AllReturned(After(EMPTY, events))
    requires forall k :: 0 <= k < |events| ==> Honest(events[k])
    ensures var s := After(EMPTY, events);
            o in s.storage && !OwnedByRow(s, o) <==> exists k: nat :: FailedDelete(EMPTY, events, k, o)
  {
    OrphansExplained(events, o);
    NoStrays(EMPTY, events);
    var s := After(EMPTY, events);
    assert o in s.storage && !OwnedByRow(s, o) <==> o in s.leaked;
    LeakedExactlyWhen(EMPTY, events, o);
  }
}
