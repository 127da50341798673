/** An in-memory stand-in for the cloud object-storage provider that the
    message saver talks to. It holds the account's buckets, the stored
    objects keyed by (bucket, object name), and a log of every call made
    to it, so that the saver's call pattern can be stated and proved. */
module ObjectStorage {

  /** Key of a stored object: (bucket name, object name). */
  type ObjectKey = (string, string)

  /** One request sent to the provider. */
  datatype Call =
    | ListAll                                     // buckets.all()
    | Create(bucket: string, location: string)    // Bucket(b).create(LocationConstraint = location)
    | Put(bucket: string, key: string, body: string)  // Object(b, k).put(Body = body)

  /** What a provider request reports back: success, or the provider's
      error for a write into a bucket that does not exist. */
  datatype Outcome = Done | NoSuchBucket(bucket: string)

  /** Kinds of calls, for counting them in a log. */
  datatype CallKind = ListKind | CreateKind | PutKind

  function KindOf(c: Call): CallKind {
    match c
    case ListAll => ListKind
    case Create(_, _) => CreateKind
    case Put(_, _, _) => PutKind
  }

  /** Number of calls of kind `k` in `calls`. */
  function Count(calls: seq<Call>, k: CallKind): (n: nat)
    ensures n <= |calls|
    ensures n == 0 <==> forall i :: 0 <= i < |calls| ==> KindOf(calls[i]) != k
    decreases |calls|
  {
    if calls == [] then 0
    else Count(calls[..|calls| - 1], k) + (if KindOf(calls[|calls| - 1]) == k then 1 else 0)
  }

  /** Counting distributes over concatenation of logs. */
  lemma {:induction false} CountAppend(a: seq<Call>, b: seq<Call>, k: CallKind)
    ensures Count(a + b, k) == Count(a, k) + Count(b, k)
    decreases |b|
  {
    if b == [] {
      assert a + b == a;
    } else {
      var b' := b[..|b| - 1];
      assert (a + b)[..|a + b| - 1] == a + b';
      assert (a + b)[|a + b| - 1] == b[|b| - 1];
      CountAppend(a, b', k);
    }
  }

  /** Counts in a log of at most three calls, spelled out. */
  lemma CountOfThree(c0: Call, c1: Call, c2: Call, k: CallKind)
    ensures Count([c0], k) == (if KindOf(c0) == k then 1 else 0)
    ensures Count([c0, c1], k) == Count([c0], k) + (if KindOf(c1) == k then 1 else 0)
    ensures Count([c0, c1, c2], k) == Count([c0, c1], k) + (if KindOf(c2) == k then 1 else 0)
  {
    CountSnoc([], c0, k);
    assert [] + [c0] == [c0];
    CountSnoc([c0], c1, k);
    assert [c0] + [c1] == [c0, c1];
    CountSnoc([c0, c1], c2, k);
    assert [c0, c1] + [c2] == [c0, c1, c2];
  }

  /** One more call adds one to the count of its kind. */
  lemma CountSnoc(calls: seq<Call>, c: Call, k: CallKind)
    ensures Count(calls + [c], k) == Count(calls, k) + (if KindOf(c) == k then 1 else 0)
  {
    assert (calls + [c])[..|calls|] == calls;
  }

  /** The provider fake. Its state is public so that callers (and the
      proofs) can describe it; only its methods issue calls. */
  class ObjectStore {
    var buckets: set<string>
    var objects: map<ObjectKey, string>
    var calls: seq<Call>

    constructor (buckets: set<string>, objects: map<ObjectKey, string>)
      ensures this.buckets == buckets && this.objects == objects && calls == []
    {
      this.buckets := buckets;
      this.objects := objects;
      calls := [];
    }

    /** Lists the names of all buckets of the account. */
    method ListBuckets() returns (names: set<string>)
      modifies this
      ensures names == buckets
      ensures buckets == old(buckets) && objects == old(objects)
      ensures calls == old(calls) + [ListAll]
    {
      names := buckets;
      calls := calls + [ListAll];
    }

    /** Creates `bucket` with the given location constraint. */
    method CreateBucket(bucket: string, location: string)
      modifies this
      ensures buckets == old(buckets) + {bucket} && objects == old(objects)
      ensures calls == old(calls) + [Create(bucket, location)]
    {
      buckets := buckets + {bucket};
      calls := calls + [Create(bucket, location)];
    }

    /** Writes `body` as object `key` of `bucket`, replacing any object of
        that name; fails, changing nothing, if the bucket does not exist. */
    method PutObject(bucket: string, key: string, body: string) returns (outcome: Outcome)
      modifies this
      ensures outcome == if bucket in old(buckets) then Done else NoSuchBucket(bucket)
      ensures buckets == old(buckets)
      ensures objects == if outcome == Done then old(objects)[(bucket, key) := body] else old(objects)
      ensures calls == old(calls) + [Put(bucket, key, body)]
    {
      if bucket in buckets {
        objects := objects[(bucket, key) := body];
        outcome := Done;
      } else {
        outcome := NoSuchBucket(bucket);
      }
      calls := calls + [Put(bucket, key, body)];
    }
  }
}
