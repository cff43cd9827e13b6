/**
 * `src/util/user-index.util.ts`: the boolean indexes, one empty-named object per indexed user
 * under `_index/<indexName>/<userId>`, listed page by page.
 */
module UserIndexUtil {
  import opened Wrappers
  import opened JsText
  import opened Sequences
  import opened ArrayUtil
  import opened UserDataConstant
  import opened Storage

  /** The prefix listed for one index. */
  function IndexListPrefix(name: IndexName): string
  {
    IndexPrefix + IndexNameText(name) + "/"
  }

  /** The key marking `userId` as indexed under `name`. */
  function IndexKey(name: IndexName, userId: string): (key: string)
    ensures key == IndexListPrefix(name) + userId
  {
    IndexPrefix + IndexNameText(name) + "/" + userId
  }

  /** The body written to an index key. */
  function IndexBody(name: IndexName, userId: string): string
  {
    IndexNameText(name) + ":" + userId
  }

  /** The index and the user id can be read back from the key. */
  lemma IndexKeyInjective(a: IndexName, x: string, b: IndexName, y: string)
    ensures IndexKey(a, x) == IndexKey(b, y) ==> a == b && x == y
  {
    if IndexKey(a, x) == IndexKey(b, y) {
      var k := IndexKey(a, x);
      assert k[11] == IndexKey(b, y)[11];
      NameFromLetter(a, b);
      var n := |IndexListPrefix(a)|;
      assert x == k[n..];
      assert y == IndexKey(b, y)[n..];
    }
  }

  /** The fifth letter of an index name tells the three apart. */
  lemma NameFromLetter(a: IndexName, b: IndexName)
    requires IndexNameText(a)[4] == IndexNameText(b)[4]
    ensures a == b
  {
  }

  /** No index key is a user-data key: the index never overwrites a record. */
  lemma IndexKeyOutsideUserData(name: IndexName, userId: string, other: string)
    ensures IndexKey(name, userId) != UserDataPrefix + other + ".json"
  {
    assert IndexKey(name, userId)[1] != (UserDataPrefix + other + ".json")[1];
  }

  // ---------------------------------------------------------------------------------------
  // From listed keys to user ids

  /** `${obj.Key || ""}`: a missing key becomes the empty string. */
  function KeyText(key: Option<string>): string
  {
    if key.Some? then key.value else ""
  }

  function KeyTexts(contents: seq<Option<string>>): (r: seq<string>)
    ensures |r| == |contents| && forall i :: 0 <= i < |r| ==> r[i] == KeyText(contents[i])
  {
    seq(|contents|, i requires 0 <= i < |contents| => KeyText(contents[i]))
  }

  predicate IsBlank(key: string) { |Trim(key)| == 0 }

  /** `.filter((key) => key.trim().length > 0)`. */
  function NonBlank(keys: seq<string>): seq<string>
  {
    if keys == [] then []
    else (if IsBlank(keys[0]) then [] else [keys[0]]) + NonBlank(keys[1..])
  }

  /** `key.split("/").reverse()[0]`: the text after the last "/". */
  function LastSegment(key: string): (r: string)
    ensures '/' !in r
  {
    var parts := Split(key, '/');
    parts[|parts| - 1]
  }

  function LastSegments(keys: seq<string>): (r: seq<string>)
    ensures |r| == |keys| && forall i :: 0 <= i < |r| ==> r[i] == LastSegment(keys[i])
  {
    seq(|keys|, i requires 0 <= i < |keys| => LastSegment(keys[i]))
  }

  /** The user ids of one listed page. */
  function PageUserIds(contents: seq<Option<string>>): seq<string>
  {
    LastSegments(ArrayUnique(NonBlank(KeyTexts(contents))))
  }

  /** The filter keeps exactly the keys that are not blank, in their order. */
  lemma {:induction false} NonBlankKeeps(keys: seq<string>, key: string)
    ensures key in NonBlank(keys) <==> key in keys && !IsBlank(key)
    ensures IsSubsequence(NonBlank(keys), keys)
  {
    if keys != [] {
      NonBlankKeeps(keys[1..], key);
      var head: seq<string> := if IsBlank(keys[0]) then [] else [keys[0]];
      assert NonBlank(keys) == head + NonBlank(keys[1..]);
      if head == [] {
        assert NonBlank(keys) == NonBlank(keys[1..]);
        SubsequenceOfTail(NonBlank(keys), keys);
      } else {
        assert NonBlank(keys)[1..] == NonBlank(keys[1..]);
      }
    }
  }

  /** A list with no blank key passes the filter unchanged. */
  lemma {:induction false} NonBlankOfNoBlank(keys: seq<string>)
    requires forall i :: 0 <= i < |keys| ==> !IsBlank(keys[i])
    ensures NonBlank(keys) == keys
  {
    if keys != [] {
      NonBlankOfNoBlank(keys[1..]);
      assert keys == [keys[0]] + keys[1..];
    }
  }

  /** A key's last segment, for a user id without "/", is that user id. */
  lemma LastSegmentOfIndexKey(name: IndexName, userId: string)
    requires '/' !in userId
    ensures LastSegment(IndexKey(name, userId)) == userId
  {
    var pieces := ["_index", IndexNameText(name), userId];
    assert Join(pieces, '/') == IndexKey(name, userId) by {
      assert Join(pieces[2..], '/') == userId;
      assert Join(pieces[1..], '/') == IndexNameText(name) + ['/'] + userId;
    }
    assert '/' !in pieces[0];
    SplitJoin(pieces, '/');
  }

  lemma IndexKeyNotBlank(name: IndexName, userId: string)
    ensures !IsBlank(IndexKey(name, userId))
  {
    var k := IndexKey(name, userId);
    assert !IsSpace(k[0]);
    assert TrimStart(k) == k;
  }

  /** The listing's entries for the ids `userIds` of one index. */
  function IndexEntries(name: IndexName, userIds: seq<string>): (r: seq<Option<string>>)
    ensures |r| == |userIds| && forall i :: 0 <= i < |r| ==> r[i] == Some(IndexKey(name, userIds[i]))
  {
    seq(|userIds|, i requires 0 <= i < |userIds| => Some(IndexKey(name, userIds[i])))
  }

  /**
   * A page listing the keys of distinct user ids without "/" gives back those ids, in the
   * listing's order.
   */
  lemma PageOfIndexKeys(name: IndexName, userIds: seq<string>)
    requires NoDuplicates(userIds)
    requires forall i :: 0 <= i < |userIds| ==> '/' !in userIds[i]
    ensures PageUserIds(IndexEntries(name, userIds)) == userIds
  {
    var keys := KeyTexts(IndexEntries(name, userIds));
    forall i | 0 <= i < |keys| ensures !IsBlank(keys[i]) {
      IndexKeyNotBlank(name, userIds[i]);
    }
    NonBlankOfNoBlank(keys);
    forall i, j | 0 <= i < j < |keys| ensures keys[i] != keys[j] {
      IndexKeyInjective(name, userIds[i], name, userIds[j]);
    }
    ArrayUniqueOfDistinct(keys);
    forall i | 0 <= i < |userIds| ensures LastSegment(keys[i]) == userIds[i] {
      LastSegmentOfIndexKey(name, userIds[i]);
    }
  }

  /** Every id on a page comes from a key on it that is not blank; no id appears twice. */
  lemma PageUserIdsFromKeys(contents: seq<Option<string>>, userId: string)
    requires userId in PageUserIds(contents)
    ensures exists key :: key in KeyTexts(contents) && !IsBlank(key) && LastSegment(key) == userId
  {
    var unique := ArrayUnique(NonBlank(KeyTexts(contents)));
    var i :| 0 <= i < |unique| && LastSegments(unique)[i] == userId;
    ArrayUniqueSameValues(NonBlank(KeyTexts(contents)), unique[i]);
    NonBlankKeeps(KeyTexts(contents), unique[i]);
  }

  // ---------------------------------------------------------------------------------------
  // Paging through an index

  /** What one `ListObjectsV2Command` gives: an error, or the listed keys and the next token. */
  datatype ListResponse = ListFailed(error: Error) | Listed(contents: seq<Option<string>>, nextToken: Option<string>)

  /** The token a response hands on; an error hands on none. */
  function NextToken(p: ListResponse): Option<string>
  {
    if p.Listed? then p.nextToken else None
  }

  /** A list request: the prefix, `maxKeys` and the continuation token sent. */
  datatype ListRequest = ListRequest(prefix: string, maxKeys: Option<nat>, continuationToken: Option<string>)

  /** `NextContinuationToken || null` and `if (!token) break`: an empty token ends the loop too. */
  predicate HasNextToken(p: ListResponse) { p.Listed? && p.nextToken.Some? && |p.nextToken.value| > 0 }

  /**
   * The responses one run of the loop receives: every one but the last hands on a token, and the
   * last ends the loop, by an error or by having none.
   */
  predicate ListingRun(pages: seq<ListResponse>)
  {
    |pages| > 0 && !HasNextToken(pages[|pages| - 1]) &&
    forall i :: 0 <= i < |pages| - 1 ==> HasNextToken(pages[i])
  }

  /** The ids one response gives; an error gives none. */
  function PageIds(p: ListResponse): seq<string>
  {
    if p.Listed? then PageUserIds(p.contents) else []
  }

  /** The ids of the first `n` pages, in order. */
  function Gathered(pages: seq<ListResponse>, n: nat): seq<string>
    requires n <= |pages|
  {
    if n == 0 then [] else Gathered(pages, n - 1) + PageIds(pages[n - 1])
  }

  /** What `getIndexedUserIds` returns: every page's ids, or the error that ended the listing. */
  function IndexedUserIds(pages: seq<ListResponse>): Result<seq<string>, Error>
    requires ListingRun(pages)
  {
    var last := pages[|pages| - 1];
    if last.ListFailed? then Failure(last.error) else Success(Gathered(pages, |pages|))
  }

  /** The requests the loop sends, listing `prefix`, for the first `n` pages. */
  function ListRequests(prefix: string, maxKeys: Option<nat>, pages: seq<ListResponse>, n: nat): seq<ListRequest>
    requires n <= |pages|
  {
    if n == 0 then []
    else ListRequests(prefix, maxKeys, pages, n - 1) + [ListRequest(prefix, maxKeys, if n == 1 then None else NextToken(pages[n - 2]))]
  }

  /**
   * Each request lists the prefix with the caller's `maxKeys`: the first with no continuation
   * token, each later one with the token of the page before it.
   */
  lemma {:induction false} ListRequestsAt(prefix: string, maxKeys: Option<nat>, pages: seq<ListResponse>, n: nat)
    requires n <= |pages|
    ensures |ListRequests(prefix, maxKeys, pages, n)| == n
    ensures forall i :: 0 <= i < n ==>
      ListRequests(prefix, maxKeys, pages, n)[i]
        == ListRequest(prefix, maxKeys, if i == 0 then None else NextToken(pages[i - 1]))
  {
    if n > 0 {
      ListRequestsAt(prefix, maxKeys, pages, n - 1);
    }
  }

  /** `getIndexedUserIds`: list page after page, following the continuation token. */
  method GetIndexedUserIds(name: IndexName, maxKeys: Option<nat>, pages: seq<ListResponse>)
    returns (r: Result<seq<string>, Error>, requests: seq<ListRequest>)
    requires ListingRun(pages)
    ensures r == IndexedUserIds(pages)
    ensures requests == ListRequests(IndexListPrefix(name), maxKeys, pages, |pages|)
  {
    var prefix := IndexListPrefix(name);
    var continuationToken: Option<string> := None;
    var allUserIds: seq<string> := [];
    var i := 0;
    requests := [];
    while true
      invariant 0 <= i < |pages|
      invariant allUserIds == Gathered(pages, i)
      invariant continuationToken == if i == 0 then None else NextToken(pages[i - 1])
      invariant requests == ListRequests(prefix, maxKeys, pages, i)
      decreases |pages| - i
    {
      requests := requests + [ListRequest(prefix, maxKeys, continuationToken)];
      assert requests == ListRequests(prefix, maxKeys, pages, i + 1);
      var page := pages[i];
      if page.ListFailed? {
        assert i + 1 == |pages|;
        return Failure(page.error), requests;
      }
      allUserIds := allUserIds + PageUserIds(page.contents);
      assert allUserIds == Gathered(pages, i + 1);
      if !HasNextToken(page) {
        assert i + 1 == |pages|;
        return Success(allUserIds), requests;
      }
      assert i + 1 < |pages|;
      continuationToken := page.nextToken;
      i := i + 1;
    }
  }

  /**
   * Seven indexed users listed three keys at a time come back, all seven, in order: the pages
   * hold three, three and one, and only the last has no continuation token.
   */
  lemma SevenUsersInPagesOfThree(userIds: seq<string>)
    requires |userIds| == 7 && NoDuplicates(userIds)
    requires forall i :: 0 <= i < 7 ==> '/' !in userIds[i]
    ensures var pages := [
        Listed(IndexEntries(HasAuthIndex, userIds[..3]), Some("t1")),
        Listed(IndexEntries(HasAuthIndex, userIds[3..6]), Some("t2")),
        Listed(IndexEntries(HasAuthIndex, userIds[6..7]), None)];
      ListingRun(pages) && IndexedUserIds(pages) == Success(userIds)
  {
    PlainSlice(userIds, 0, 3);
    PlainSlice(userIds, 3, 6);
    PlainSlice(userIds, 6, 7);
    ListedPages(userIds[..3], userIds[3..6], userIds[6..7]);
    Thirds(userIds);
  }

  /** Three pages of index entries, chained by their tokens, give back their ids in order. */
  lemma ListedPages(a: seq<string>, b: seq<string>, c: seq<string>)
    requires PageUserIds(IndexEntries(HasAuthIndex, a)) == a
    requires PageUserIds(IndexEntries(HasAuthIndex, b)) == b
    requires PageUserIds(IndexEntries(HasAuthIndex, c)) == c
    ensures var pages := [
        Listed(IndexEntries(HasAuthIndex, a), Some("t1")),
        Listed(IndexEntries(HasAuthIndex, b), Some("t2")),
        Listed(IndexEntries(HasAuthIndex, c), None)];
      ListingRun(pages) && IndexedUserIds(pages) == Success(a + b + c)
  {
    ThreePages(
      Listed(IndexEntries(HasAuthIndex, a), Some("t1")),
      Listed(IndexEntries(HasAuthIndex, b), Some("t2")),
      Listed(IndexEntries(HasAuthIndex, c), None));
  }

  lemma Thirds<T>(s: seq<T>)
    requires |s| == 7
    ensures s[..3] + s[3..6] + s[6..7] == s
  {
    assert s[..3] + s[3..6] == s[..6];
    assert s[..6] + s[6..7] == s;
  }

  /** A slice of distinct ids without "/" lists back as itself. */
  lemma PlainSlice(userIds: seq<string>, lo: nat, hi: nat)
    requires lo <= hi <= |userIds| && NoDuplicates(userIds)
    requires forall i :: 0 <= i < |userIds| ==> '/' !in userIds[i]
    ensures PageUserIds(IndexEntries(HasAuthIndex, userIds[lo..hi])) == userIds[lo..hi]
  {
    var part := userIds[lo..hi];
    assert forall i :: 0 <= i < |part| ==> part[i] == userIds[lo + i];
    PageOfIndexKeys(HasAuthIndex, part);
  }

  lemma ThreePages(p1: ListResponse, p2: ListResponse, p3: ListResponse)
    requires HasNextToken(p1) && HasNextToken(p2) && !HasNextToken(p3) && p3.Listed?
    ensures ListingRun([p1, p2, p3])
    ensures IndexedUserIds([p1, p2, p3]) == Success(PageIds(p1) + PageIds(p2) + PageIds(p3))
  {
    var pages := [p1, p2, p3];
    assert Gathered(pages, 1) == PageIds(p1);
    assert Gathered(pages, 2) == PageIds(p1) + PageIds(p2);
  }

  /** An error page ends the listing, and what earlier pages gave is dropped. */
  lemma ListingErrorDiscards(pages: seq<ListResponse>, e: Error)
    requires ListingRun(pages) && pages[|pages| - 1] == ListFailed(e)
    ensures IndexedUserIds(pages) == Failure(e)
    ensures forall i :: 0 <= i < |pages| - 1 ==> pages[i].Listed?
  {
  }

  // ---------------------------------------------------------------------------------------
  // Adding, removing and testing one user id

  /** Whether the index holds `userId`: its key is there with a body that is not empty. */
  predicate Indexed(objects: map<string, Body>, name: IndexName, userId: string)
  {
    IndexKey(name, userId) in objects && NonEmptyBody(objects[IndexKey(name, userId)])
  }

  /** What `isUserIdIndexed` returns. */
  function IndexedOutcome(objects: map<string, Body>, name: IndexName, userId: string, fault: Option<Error>): (r: Result<bool, Error>)
    ensures fault.None? ==> r == Success(Indexed(objects, name, userId))
  {
    match GetResult(objects, IndexKey(name, userId), fault)
    case Failure(e) => if e.name == "NoSuchKey" then Success(false) else Failure(e)
    case Success(body) => Success(NonEmptyBody(body))
  }

  function AddedToIndex(objects: map<string, Body>, name: IndexName, userId: string): map<string, Body>
  {
    objects[IndexKey(name, userId) := Text(IndexBody(name, userId))]
  }

  function RemovedFromIndex(objects: map<string, Body>, name: IndexName, userId: string): map<string, Body>
  {
    objects - {IndexKey(name, userId)}
  }

  /** `addUserIdToIndex`. */
  method AddUserIdToIndex(bucket: Bucket, name: IndexName, userId: string, fault: Option<Error>) returns (err: Option<Error>)
    modifies bucket
    ensures err == fault
    ensures bucket.objects == if fault.Some? then old(bucket.objects) else AddedToIndex(old(bucket.objects), name, userId)
    ensures bucket.requests == old(bucket.requests) + [PutObject(IndexKey(name, userId), Text(IndexBody(name, userId)))]
  {
    err := bucket.Put(IndexKey(name, userId), Text(IndexBody(name, userId)), fault);
  }

  /** `removeUserIdFromIndex`. */
  method RemoveUserIdFromIndex(bucket: Bucket, name: IndexName, userId: string, fault: Option<Error>) returns (err: Option<Error>)
    modifies bucket
    ensures err == fault
    ensures bucket.objects == if fault.Some? then old(bucket.objects) else RemovedFromIndex(old(bucket.objects), name, userId)
    ensures bucket.requests == old(bucket.requests) + [DeleteObject(IndexKey(name, userId))]
  {
    err := bucket.Delete(IndexKey(name, userId), fault);
  }

  /** `isUserIdIndexed`. */
  method IsUserIdIndexed(bucket: Bucket, name: IndexName, userId: string, fault: Option<Error>) returns (r: Result<bool, Error>)
    modifies bucket
    ensures r == IndexedOutcome(old(bucket.objects), name, userId, fault)
    ensures bucket.objects == old(bucket.objects)
    ensures bucket.requests == old(bucket.requests) + [GetObject(IndexKey(name, userId))]
  {
    var get := bucket.Get(IndexKey(name, userId), fault);
    if get.Failure? {
      if get.error.name == "NoSuchKey" {
        return Success(false);
      }
      return Failure(get.error);
    }
    r := Success(NonEmptyBody(get.value));
  }

  /**
   * Adding makes the id indexed and removing makes it not; either leaves every other index entry
   * as it was.
   */
  lemma AddRemoveIndexed(objects: map<string, Body>, name: IndexName, userId: string, other: IndexName, otherId: string)
    ensures Indexed(AddedToIndex(objects, name, userId), name, userId)
    ensures !Indexed(RemovedFromIndex(objects, name, userId), name, userId)
    ensures (other, otherId) != (name, userId) ==>
      (Indexed(AddedToIndex(objects, name, userId), other, otherId) <==> Indexed(objects, other, otherId)) &&
      (Indexed(RemovedFromIndex(objects, name, userId), other, otherId) <==> Indexed(objects, other, otherId))
  {
    IndexKeyInjective(name, userId, other, otherId);
  }

  /**
   * Adding an id already added, or removing one not indexed, leaves the bucket as it was; both
   * succeed when S3 does.
   */
  lemma AddRemoveIdempotent(objects: map<string, Body>, name: IndexName, userId: string)
    ensures AddedToIndex(AddedToIndex(objects, name, userId), name, userId) == AddedToIndex(objects, name, userId)
    ensures RemovedFromIndex(RemovedFromIndex(objects, name, userId), name, userId) == RemovedFromIndex(objects, name, userId)
    ensures IndexKey(name, userId) !in objects ==> RemovedFromIndex(objects, name, userId) == objects
  {
  }
}
