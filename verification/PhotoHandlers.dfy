/** The photo handlers: ordered storage and database effects, with compensating deletes. */
module PhotoHandlers {
  import opened Values
  import opened Photos

  /** How a storage call goes: what the caller sees, and whether the store did it. A call that succeeds did it. */
  datatype Fate = Fate(ok: bool, done: bool) {
    predicate Possible() {
      ok ==> done
    }
  }

  datatype DbAnswer = Added(order: int) | Full | Failed

  datatype Answer = Uploaded(id: string) | StorageError | DbError | TooManyPhotos

  lemma {:induction false} RunAppend(s: State, events: seq<Event>, e: Event)
    requires IsRun(s, events) && Enabled(After(s, events), e)
    ensures IsRun(s, events + [e]) && After(s, events + [e]) == Apply(After(s, events), e)
    decreases |events|
  {
    if events == [] {
      assert events + [e] == [e];
      assert IsRun(Apply(s, e), [e][1..]);
    } else {
      RunAppend(Apply(s, events[0]), events[1..], e);
      assert (events + [e])[1..] == events[1..] + [e];
    }
  }

  datatype UploadFates = UploadFates(raw: Fate, pub: Fate, cleanup: Fate) {
    predicate Possible() {
      raw.Possible() && pub.Possible() && cleanup.Possible()
    }

    predicate Succeeds() {
      raw.ok && pub.ok
    }

    /** The upload leaves a raw object: both succeeded, or it was stored and not removed again. */
    predicate RawStays() {
      if raw.ok && !pub.ok then !cleanup.done else raw.done
    }

    predicate PubStays() {
      raw.ok && pub.done
    }
  }

  function KeyOf(id: string, ext: string, bucket: Bucket): Object {
    if bucket == RawBucket then RawObject(id, ext) else PubObject(id)
  }

  function AfterPut(bucket: Bucket, fate: Fate): Stage {
    if bucket == RawBucket then (if fate.ok then RawStored else Cleaning(false, false))
    else (if fate.ok then BothStored else Cleaning(true, false))
  }

  function PutOf(id: string, bucket: Bucket, fate: Fate): Event {
    if bucket == RawBucket then PutRaw(id, fate.ok, fate.done) else PutPub(id, fate.ok, fate.done)
  }

  /** The photo of a request in progress is at this stage. */
  predicate Owned(s: State, id: string, listing: nat, ext: string, stage: Stage) {
    id in s.photos && s.photos[id] == Photo(listing, ext, stage)
  }

  /** Which of the photo's two objects are in storage. */
  predicate Stores(s: State, id: string, ext: string, raw: bool, pub: bool) {
    (RawObject(id, ext) in s.storage <==> raw) && (PubObject(id) in s.storage <==> pub)
  }

  /** Nothing about this photo changed: neither stage nor row nor objects. */
  ghost predicate Untouched(s: State, s': State, id: string) {
    && id in s.photos && id in s'.photos && s'.photos[id] == s.photos[id]
    && (id in s'.rows <==> id in s.rows) && (id in s.rows ==> s'.rows[id] == s.rows[id])
    && Stores(s', id, s.photos[id].ext, RawObject(id, s.photos[id].ext) in s.storage, PubObject(id) in s.storage)
  }

  /** A step of another photo touches nothing of this one. */
  lemma OwnUntouched(s: State, e: Event, id: string, events: seq<Event>)
    requires IsRun(EMPTY, events) && s == After(EMPTY, events)
    requires Enabled(s, e) && Subject(e) != Some(id) && id in s.photos
    ensures Untouched(s, Apply(s, e), id)
  {
    Reachable(events);
    OtherPhotos(s, e, id);
    assert PhotoAgrees(s, id);
    var ext := s.photos[id].ext;
    if Subject(e).Some? && e.id in s.photos {
      assert PhotoAgrees(s, e.id);
      KeysDiffer(id, ext, e.id, s.photos[e.id].ext);
      KeysDiffer(id, ".jpg", e.id, ".jpg");
    }
    OtherObjects(s, e, RawObject(id, ext));
    OtherObjects(s, e, PubObject(id));
  }

  lemma CommitParts(s: State, id: string, ok: bool)
    requires At(s, id, BothStored)
    ensures var photo, s' := s.photos[id], Apply(s, Commit(id, ok));
            var fits := ok && |OfListing(s.rows, photo.listing)| < MAX_PHOTOS_PER_LISTING;
            && s'.storage == s.storage && s'.listings == s.listings
            && s'.photos == s.photos[id := photo.(stage := if fits then Kept else Cleaning(true, true))]
            && s'.rows ==
               if fits then s.rows[id := Row(photo.listing, photo.ext, NextOrder(s.rows, photo.listing))] else s.rows
  {
  }

  lemma Reachable(events: seq<Event>)
    requires IsRun(EMPTY, events)
    ensures Consistent(After(EMPTY, events)) && Limited(After(EMPTY, events).rows)
  {
    EmptyIsConsistent();
    RunKeeps(EMPTY, events);
  }

  class Gallery {
    var listings: map<nat, Listing>
    var rows: Rows
    var storage: set<Object>
    var photos: map<string, Photo>  // what the requests in progress hold
    var leaked: set<Object>
    var strays: set<Object>
    ghost var trace: seq<Event>

    function State(): State
      reads this
    {
      Photos.State(listings, rows, storage, photos, leaked, strays)
    }

    /** The state is what the steps taken so far lead to, so every theorem about runs speaks of it. */
    ghost predicate Valid()
      reads this
    {
      IsRun(EMPTY, trace) && State() == After(EMPTY, trace)
    }

    constructor ()
      ensures Valid() && State() == EMPTY
    {
      listings, rows, storage := map[], map[], {};
      photos, leaked, strays, trace := map[], {}, {}, [];
    }

    method Record(e: Event, before: State)
      requires IsRun(EMPTY, trace) && before == After(EMPTY, trace) && Enabled(before, e)
      requires listings == Apply(before, e).listings && rows == Apply(before, e).rows
      requires storage == Apply(before, e).storage
      modifies this`photos, this`leaked, this`strays, this`trace
      ensures Valid() && State() == Apply(before, e) && trace == old(trace) + [e]
    {
      RunAppend(EMPTY, trace, e);
      var s := Apply(before, e);
      photos, leaked, strays, trace := s.photos, s.leaked, s.strays, trace + [e];
    }

    /** Whatever the rest of the program does to listings. */
    method EditListings(now: map<nat, Listing>)
      requires Valid()
      modifies this
      ensures Valid() && listings == now && rows == old(rows) && storage == old(storage) && photos == old(photos)
    {
      var before := State();
      listings := now;
      Record(Event.EditListings(now), before);
    }

    // ----- single effects -----

    /** A fresh UUID is drawn for the photo. */
    method Register(id: string, listing: nat, ext: string)
      requires Valid() && id !in photos && |id| == ID_LENGTH
      modifies this`photos, this`leaked, this`strays, this`trace
      ensures Valid() && trace == old(trace) + [Begin(id, listing, ext)]
      ensures photos == old(photos)[id := Photo(listing, ext, Begun)]
    {
      Record(Begin(id, listing, ext), State());
    }

    method Upload(id: string, ext: string, bucket: Bucket, fate: Fate)
      requires Valid() && fate.Possible()
      requires id in photos && photos[id].ext == ext
      requires photos[id].stage == if bucket == RawBucket then Begun else RawStored
      modifies this`storage, this`photos, this`leaked, this`strays, this`trace
      ensures Valid() && trace == old(trace) + [PutOf(id, bucket, fate)]
      ensures storage == old(storage) + (if fate.done then {KeyOf(id, ext, bucket)} else {})
      ensures photos == old(photos)[id := old(photos)[id].(stage := AfterPut(bucket, fate))]
    {
      var before := State();
      if fate.done {
        storage := storage + {KeyOf(id, ext, bucket)};
      }
      Record(PutOf(id, bucket, fate), before);
    }

    /** `storage.delete(…).catch(…)`: a failure is only reported. */
    method DeleteObject(id: string, ext: string, bucket: Bucket, fate: Fate)
      requires Valid() && fate.Possible() && id in photos && photos[id].ext == ext && photos[id].stage.Cleaning?
      requires if bucket == RawBucket then photos[id].stage.raw else photos[id].stage.pub
      modifies this`storage, this`photos, this`leaked, this`strays, this`trace
      ensures Valid() && trace == old(trace) + [Delete(id, bucket, fate.ok, fate.done)]
      ensures storage == old(storage) - (if fate.done then {KeyOf(id, ext, bucket)} else {})
      ensures photos == old(photos)[id := old(photos)[id].(stage := AfterDelete(old(photos)[id].stage, bucket))]
    {
      var before := State();
      if fate.done {
        storage := storage - {KeyOf(id, ext, bucket)};
      }
      Record(Delete(id, bucket, fate.ok, fate.done), before);
    }

    lemma WillAppend(id: string, answers: bool)
      requires Valid() && id in photos && photos[id].stage == BothStored
      ensures id !in rows
      ensures var listing, rows' := photos[id].listing, Apply(State(), Commit(id, answers)).rows;
              if answers && |OfListing(rows, listing)| < 3
              then Appended(rows, rows', listing, id) else rows' == rows
    {
      Reachable(trace);
      assert PhotoAgrees(State(), id);
      CommitAppends(State(), id, answers);
    }

    /**
     * The transaction: count, then insert behind the greatest order. `answers` is false when it throws and rolls
     * back.
     */
    method AddPhotoToListing(id: string, listing: nat, ext: string, answers: bool) returns (r: DbAnswer)
      requires Valid() && id in photos && photos[id] == Photo(listing, ext, BothStored)
      modifies this
      ensures Valid() && trace == old(trace) + [Commit(id, answers)]
      ensures storage == old(storage) && listings == old(listings)
      ensures photos == old(photos)[id := old(photos)[id].(stage := if r.Added? then Kept else Cleaning(true, true))]
      ensures r.Added? ==> Appended(old(rows), rows, listing, id) && rows[id].ext == ext
      ensures !r.Added? ==> rows == old(rows)
      ensures r.Failed? <==> !answers
      ensures r.Full? <==> answers && |OfListing(old(rows), listing)| >= 3
      ensures r.Added? ==> id in rows && rows[id].order == r.order
    {
      var before := State();
      CommitParts(before, id, answers);
      WillAppend(id, answers);
      if !answers {
        r := Failed;
      } else if |OfListing(rows, listing)| >= MAX_PHOTOS_PER_LISTING {
        r := Full;
      } else {
        var order := NextOrder(rows, listing);
        r := Added(order);
        rows := rows[id := Row(listing, ext, order)];
        assert rows - {id} == old(rows);
      }
      Record(Commit(id, answers), before);
    }

    /** DELETE … WHERE id = ? AND the user owns the listing … RETURNING */
    method DeleteListingPhoto(id: string, user: string) returns (deleted: Option<string>)
      requires Valid()
      modifies this
      ensures Valid() && State() == Apply(old(State()), DeleteRow(id, user))
      ensures trace == old(trace) + [DeleteRow(id, user)]
      ensures deleted.Some? <==>
              old(id in rows && rows[id].listing in listings && listings[rows[id].listing].owner == user
                  && !listings[rows[id].listing].deleted)
      ensures deleted.Some? ==> deleted.value == old(if id in rows then rows[id].ext else "")
    {
      var before := State();
      Reachable(trace);
      if id in rows && Owns(listings, rows[id].listing, user) {
        deleted := Some(rows[id].ext);
        rows := rows - {id};
      } else {
        deleted := None;
      }
      Record(DeleteRow(id, user), before);
    }

    lemma NothingYet(id: string, ext: string)
      requires Valid() && id !in photos && |id| == ID_LENGTH
      ensures RawObject(id, ext) !in storage && PubObject(id) !in storage && id !in rows
    {
      Reachable(trace);
      FreshObjects(State(), id, ext);
    }

    // ----- what the other requests do meanwhile -----

    /** A step of another photo's request, or of the rest of the program on listings, if it is possible now. */
    method Happens(e: Event, id: string)
      requires Valid() && id in photos
      modifies this
      ensures Valid() && Untouched(old(State()), State(), id)
    {
      if Subject(e) != Some(id) && Enabled(State(), e) {
        var before := State();
        var after := Apply(before, e);
        OwnUntouched(before, e, id, trace);
        RunAppend(EMPTY, trace, e);
        listings, rows, storage := after.listings, after.rows, after.storage;
        photos, leaked, strays, trace := after.photos, after.leaked, after.strays, trace + [e];
      }
    }

    /** An await of the request for this photo. */
    method Await(id: string)
      requires Valid() && id in photos
      modifies this
      ensures Valid() && Untouched(old(State()), State(), id)
    {
      var events: seq<Event> := *;
      for i := 0 to |events|
        invariant Valid() && id in photos && Untouched(old(State()), State(), id)
      {
        Happens(events[i], id);
      }
    }

    // ----- the handlers -----

    /** Raw first, then public; when the public one fails the raw one is removed again. */
    method UploadListingPhotoLocked(id: string, listing: nat, ext: string, fates: UploadFates) returns (ok: bool)
      requires Valid() && id !in photos && |id| == ID_LENGTH && fates.Possible()
      modifies this
      ensures Valid() && (ok <==> fates.Succeeds())
      ensures Owned(State(), id, listing, ext, if ok then BothStored else Cleaning(false, false))
      ensures Stores(State(), id, ext, fates.RawStays(), fates.PubStays()) && id !in rows
    {
      NothingYet(id, ext);
      Register(id, listing, ext);
      Await(id);
      Upload(id, ext, RawBucket, fates.raw);
      Await(id);
      if !fates.raw.ok {
        return false;
      }
      Upload(id, ext, PubBucket, fates.pub);
      Await(id);
      if !fates.pub.ok {
        DeleteObject(id, ext, RawBucket, fates.cleanup);
        Await(id);
        return false;
      }
      ok := true;
    }

    /** Both deletes start together; here the raw one is answered first. */
    method RemoveBoth(id: string, listing: nat, ext: string, raw: Fate, pub: Fate)
      requires Valid() && Owned(State(), id, listing, ext, Cleaning(true, true)) && id !in rows
      requires raw.Possible() && pub.Possible()
      modifies this
      ensures Valid() && Owned(State(), id, listing, ext, Cleaning(false, false)) && id !in rows
      ensures Stores(State(), id, ext, !raw.done, !pub.done)
    {
      BothThere(id);
      Await(id);
      DeleteObject(id, ext, RawBucket, raw);
      Await(id);
      DeleteObject(id, ext, PubBucket, pub);
      Await(id);
    }

    lemma BothThere(id: string)
      requires Valid() && id in photos && photos[id].stage == Cleaning(true, true)
      ensures Stores(State(), id, photos[id].ext, true, true)
    {
      Reachable(trace);
      assert PhotoAgrees(State(), id);
    }

    /**
     * The add handler after its checks, with any other requests at work between its awaits. It answers with the photo
     * exactly when both objects are stored and the row fits at the moment of its transaction, `at` being the rows just
     * before it; then exactly its row is new and both objects are stored. Otherwise it leaves no row, and of its
     * objects exactly those that the failed calls left.
     */
    method AddPhoto(id: string, listing: nat, ext: string, fates: UploadFates, answers: bool, raw: Fate, pub: Fate)
      returns (r: Answer, ghost at: Rows)
      requires Valid() && id !in photos && |id| == ID_LENGTH
      requires fates.Possible() && raw.Possible() && pub.Possible()
      modifies this
      ensures Valid()
      ensures r.StorageError? <==> !fates.Succeeds()
      ensures r.DbError? <==> fates.Succeeds() && !answers
      ensures r.TooManyPhotos? <==> fates.Succeeds() && answers && |OfListing(at, listing)| >= 3
      ensures r.Uploaded? ==> r.id == id && Appended(at, rows, listing, id) && rows[id].ext == ext
      ensures r.Uploaded? ==> Stores(State(), id, ext, true, true)
      ensures !r.Uploaded? ==> id !in rows
      ensures r.StorageError? ==> Stores(State(), id, ext, fates.RawStays(), fates.PubStays())
      ensures r.DbError? || r.TooManyPhotos? ==> Stores(State(), id, ext, !raw.done, !pub.done)
    {
      var ok := UploadListingPhotoLocked(id, listing, ext, fates);
      at := rows;
      if !ok {
        return StorageError, at;
      }
      Await(id);
      at := rows;
      var photo := AddPhotoToListing(id, listing, ext, answers);
      if photo.Added? {
        return Uploaded(id), at;
      }
      r := if photo.Failed? then DbError else TooManyPhotos;
      RemoveBoth(id, listing, ext, raw, pub);
    }

    /** The delete handler: a photo that is not there, or not the user's, leaves everything as it was. */
    method DeletePhoto(id: string, user: string, raw: Fate, pub: Fate) returns (found: bool)
      requires Valid() && raw.Possible() && pub.Possible()
      modifies this
      ensures Valid()
      ensures found <==>
              old(id in rows && rows[id].listing in listings && listings[rows[id].listing].owner == user
                  && !listings[rows[id].listing].deleted)
      ensures found ==> id !in rows
      ensures found ==> Stores(State(), id, old(if id in rows then rows[id].ext else ""), !raw.done, !pub.done)
      ensures !found ==> State() == old(State())
    {
      Reachable(trace);
      assert id in rows ==> PhotoAgrees(State(), id);
      var deleted := DeleteListingPhoto(id, user);
      if deleted.None? {
        return false;
      }
      RemoveBoth(id, photos[id].listing, deleted.value, raw, pub);
      found := true;
    }
  }
}
