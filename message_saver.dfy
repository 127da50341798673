/** The cloud-side storage sink. `MessageSaver.StoreObject` keeps a cache of
    bucket names it has already checked; on a cache miss it lists the
    provider's buckets, creates the bucket (with the configured location
    constraint) only when no existing bucket has exactly that name, records
    the name, and then always writes the message as an object.

    `Store` is the specification: it gives the result and the whole new
    state (cache plus provider) as a function of the old state. The class
    method is proved to behave exactly like it, and the properties of the
    sink are proved about `Store`. */
module MessageSaving {
  import opened ObjectStorage

  /** Observable state of one saver together with its provider. */
  datatype Sink = Sink(
    checked: seq<string>,                 // the saver's cache of checked buckets
    buckets: set<string>,                 // provider: existing buckets
    objects: map<ObjectKey, string>,      // provider: stored objects
    calls: seq<Call>)                     // provider: every call received

  /** Result of one store: what the provider reported, and the new state. */
  datatype Stored = Stored(outcome: Outcome, sink: Sink)

  predicate NoDuplicates(names: seq<string>) {
    forall i, j :: 0 <= i < j < |names| ==> names[i] != names[j]
  }

  /** Every cached name is a bucket the provider has. */
  predicate CacheBacked(s: Sink) {
    forall b :: b in s.checked ==> b in s.buckets
  }

  /** The calls a store issued, when `after` extends the log of `before`. */
  function Issued(before: Sink, after: Sink): seq<Call>
    requires |before.calls| <= |after.calls|
  {
    after.calls[|before.calls|..]
  }

  /** The write step: one Put call; it succeeds exactly when the bucket exists. */
  function PutStep(s: Sink, bucket: string, key: string, body: string): (r: Stored)
    ensures r.sink.calls == s.calls + [Put(bucket, key, body)]
    ensures r.sink.checked == s.checked && r.sink.buckets == s.buckets
    ensures r.outcome == Done <==> bucket in s.buckets
    ensures r.outcome != Done ==> r.outcome == NoSuchBucket(bucket)
    ensures r.sink.objects == if r.outcome == Done then s.objects[(bucket, key) := body] else s.objects
  {
    if bucket in s.buckets then
      Stored(Done, s.(objects := s.objects[(bucket, key) := body], calls := s.calls + [Put(bucket, key, body)]))
    else
      Stored(NoSuchBucket(bucket), s.(calls := s.calls + [Put(bucket, key, body)]))
  }

  /** One `store_object(message, objectName, bucketName)` with bucket
      location `location`. */
  function Store(s: Sink, location: string, message: string, objectName: string, bucketName: string): (r: Stored)
    // after the call the bucket is in the cache
    ensures bucketName in r.sink.checked
    // the cache is append-only and gains at most this one name
    ensures |s.checked| <= |r.sink.checked| <= |s.checked| + 1
    ensures r.sink.checked[..|s.checked|] == s.checked
    ensures forall b :: b in r.sink.checked ==> b in s.checked || b == bucketName
    ensures NoDuplicates(s.checked) ==> NoDuplicates(r.sink.checked)
    // buckets are never removed, and only this one can appear
    ensures s.buckets <= r.sink.buckets <= s.buckets + {bucketName}
    // the write lands in the named bucket and nothing else changes
    ensures r.outcome == Done <==> bucketName in r.sink.buckets
    ensures r.sink.objects == if r.outcome == Done then s.objects[(bucketName, objectName) := message] else s.objects
    // the provider log is only extended
    ensures |s.calls| < |r.sink.calls| && r.sink.calls[..|s.calls|] == s.calls
    // a cache backed by the provider stays backed, and the write succeeds
    ensures CacheBacked(s) ==> CacheBacked(r.sink) && r.outcome == Done
  {
    if bucketName in s.checked then
      PutStep(s, bucketName, objectName, message)
    else
      var listed := s.(calls := s.calls + [ListAll]);
      var resolved :=
        if bucketName !in s.buckets then
          listed.(buckets := s.buckets + {bucketName}, calls := listed.calls + [Create(bucketName, location)])
        else
          listed;
      PutStep(resolved.(checked := s.checked + [bucketName]), bucketName, objectName, message)
  }

  /** The exact calls one store issues: a cache hit issues only the Put; a
      miss lists first, creates only when no listed bucket has that name,
      and then puts. */
  lemma StoreIssues(s: Sink, location: string, message: string, objectName: string, bucketName: string)
    ensures var r := Store(s, location, message, objectName, bucketName);
      Issued(s, r.sink) ==
        if bucketName in s.checked then [Put(bucketName, objectName, message)]
        else if bucketName in s.buckets then [ListAll, Put(bucketName, objectName, message)]
        else [ListAll, Create(bucketName, location), Put(bucketName, objectName, message)]
  {
  }

  /** Call counts of one store: exactly one Put; one listing on a cache miss
      and none on a hit; one Create, with the configured location, exactly
      when the name is neither cached nor listed. */
  lemma {:induction false} StoreCallCounts(s: Sink, location: string, message: string, objectName: string, bucketName: string)
    ensures var r := Store(s, location, message, objectName, bucketName);
      && Count(Issued(s, r.sink), PutKind) == 1
      && Count(Issued(s, r.sink), ListKind) == (if bucketName in s.checked then 0 else 1)
      && Count(Issued(s, r.sink), CreateKind) == (if bucketName in s.checked || bucketName in s.buckets then 0 else 1)
      && forall c :: c in Issued(s, r.sink) && c.Create? ==> c == Create(bucketName, location)
  {
    var put := Put(bucketName, objectName, message);
    var r := Store(s, location, message, objectName, bucketName);
    StoreIssues(s, location, message, objectName, bucketName);
    var issued := Issued(s, r.sink);
    if bucketName in s.checked {
      assert issued == [put];
      CountOfThree(put, put, put, PutKind);
      CountOfThree(put, put, put, ListKind);
      CountOfThree(put, put, put, CreateKind);
    } else if bucketName in s.buckets {
      assert issued == [ListAll, put];
      CountOfThree(ListAll, put, put, PutKind);
      CountOfThree(ListAll, put, put, ListKind);
      CountOfThree(ListAll, put, put, CreateKind);
    } else {
      assert issued == [ListAll, Create(bucketName, location), put];
      CountOfThree(ListAll, Create(bucketName, location), put, PutKind);
      CountOfThree(ListAll, Create(bucketName, location), put, ListKind);
      CountOfThree(ListAll, Create(bucketName, location), put, CreateKind);
    }
  }

  /** Two stores into the same bucket on a fresh saver whose provider lacks
      the bucket: one listing, one create, two puts, and both writes land. */
  lemma {:induction false} StoreTwiceCreatesOnce(buckets: set<string>, objects: map<ObjectKey, string>, location: string,
                                               bucketName: string, m1: string, o1: string, m2: string, o2: string)
    requires bucketName !in buckets
    ensures var s0 := Sink([], buckets, objects, []);
      var r1 := Store(s0, location, m1, o1, bucketName);
      var r2 := Store(r1.sink, location, m2, o2, bucketName);
      && r2.sink.calls == [ListAll, Create(bucketName, location), Put(bucketName, o1, m1), Put(bucketName, o2, m2)]
      && Count(r2.sink.calls, CreateKind) == 1
      && Count(r2.sink.calls, PutKind) == 2
      && r1.outcome == Done && r2.outcome == Done
      && r2.sink.checked == [bucketName]
  {
    var s0 := Sink([], buckets, objects, []);
    var r1 := Store(s0, location, m1, o1, bucketName);
    var r2 := Store(r1.sink, location, m2, o2, bucketName);
    StoreIssues(s0, location, m1, o1, bucketName);
    StoreIssues(r1.sink, location, m2, o2, bucketName);
    assert r1.sink.calls == [ListAll, Create(bucketName, location), Put(bucketName, o1, m1)];
    var calls := r2.sink.calls;
    assert calls == [ListAll, Create(bucketName, location), Put(bucketName, o1, m1)] + [Put(bucketName, o2, m2)];
    forall k: CallKind ensures Count(calls, k) == Count(calls[..3], k) + (if KindOf(calls[3]) == k then 1 else 0) {
      assert calls[..3] == calls[..|calls| - 1];
      CountOfThree(ListAll, Create(bucketName, location), Put(bucketName, o1, m1), k);
    }
    CountOfThree(ListAll, Create(bucketName, location), Put(bucketName, o1, m1), CreateKind);
    CountOfThree(ListAll, Create(bucketName, location), Put(bucketName, o1, m1), PutKind);
    assert calls[..3] == [ListAll, Create(bucketName, location), Put(bucketName, o1, m1)];
  }

  /** A bucket that already exists under exactly the requested name is
      reused: the store lists, creates nothing, and writes into it. */
  lemma ExistingBucketReused(s: Sink, location: string, message: string, objectName: string, bucketName: string)
    requires bucketName !in s.checked && bucketName in s.buckets
    ensures var r := Store(s, location, message, objectName, bucketName);
      && Count(Issued(s, r.sink), CreateKind) == 0
      && r.sink.buckets == s.buckets
      && r.outcome == Done
      && r.sink.objects == s.objects[(bucketName, objectName) := message]
  {
    StoreCallCounts(s, location, message, objectName, bucketName);
  }

  /** The saver, over its provider. `checkedBuckets` is the cache; it starts
      empty. */
  class MessageSaver {
    const store: ObjectStore
    const bucketLocation: string
    var checkedBuckets: seq<string>

    /** The saver's cache together with its provider's state. */
    function State(): Sink
      reads this, store
    {
      Sink(checkedBuckets, store.buckets, store.objects, store.calls)
    }

    constructor (store: ObjectStore, bucketLocation: string)
      ensures this.store == store && this.bucketLocation == bucketLocation
      ensures checkedBuckets == []
    {
      this.store := store;
      this.bucketLocation := bucketLocation;
      checkedBuckets := [];
    }

    method StoreObject(message: string, objectName: string, bucketName: string) returns (outcome: Outcome)
      modifies this, store
      ensures Stored(outcome, State()) == Store(old(State()), bucketLocation, message, objectName, bucketName)
    {
      if bucketName !in checkedBuckets {
        var names := store.ListBuckets();
        if bucketName !in names {
          store.CreateBucket(bucketName, bucketLocation);
          checkedBuckets := checkedBuckets + [bucketName];
        } else {
          checkedBuckets := checkedBuckets + [bucketName];
        }
      }
      outcome := store.PutObject(bucketName, objectName, message);
    }
  }
}
