/**
 * The data bucket the utilities read and write, standing in for the S3 calls they make: a map
 * from key to stored body and the log of requests sent. Each call takes the error S3 fails it
 * with, if it does (a missing bucket, a network error); which calls fail is up to the caller.
 */
module Storage {
  import opened Wrappers
  import opened UserDataConstant

  /** An `S3ServiceException`: its `name` and `message`. */
  datatype Error = Error(name: string, message: string)

  const NoSuchKey: Error := Error("NoSuchKey", "The specified key does not exist.")

  /**
   * A stored body: a user-data record written as JSON by `JSON.stringify`, or plain text such as
   * an index entry's body.
   */
  datatype Body = Record(data: UserData) | Text(text: string)

  /**
   * The `ContentLength` of a body. A record's JSON has at least its two braces; its exact length
   * is not part of this model, only that it is not zero.
   */
  predicate NonEmptyBody(body: Body)
  {
    match body
    case Record(_) => true
    case Text(text) => |text| > 0
  }

  /** What a `GetObjectCommand` on `key` gives, when the call fails with `fault` if that is set. */
  function GetResult(objects: map<string, Body>, key: string, fault: Option<Error>): (r: Result<Body, Error>)
    ensures r.Success? <==> fault.None? && key in objects
    ensures r.Success? ==> r.value == objects[key]
    ensures r.Failure? && fault.None? ==> r.error == NoSuchKey
  {
    if fault.Some? then Failure(fault.value)
    else if key in objects then Success(objects[key])
    else Failure(NoSuchKey)
  }

  datatype Request = GetObject(key: string) | PutObject(key: string, body: Body) | DeleteObject(key: string)

  class Bucket {
    var objects: map<string, Body>
    var requests: seq<Request>

    constructor()
      ensures objects == map[] && requests == []
    {
      objects := map[];
      requests := [];
    }

    /** `GetObjectCommand`: the body under `key`, or `NoSuchKey` when there is none. */
    method Get(key: string, fault: Option<Error>) returns (r: Result<Body, Error>)
      modifies this
      ensures objects == old(objects) && requests == old(requests) + [GetObject(key)]
      ensures r == GetResult(objects, key, fault)
    {
      requests := requests + [GetObject(key)];
      if fault.Some? {
        r := Failure(fault.value);
      } else if key in objects {
        r := Success(objects[key]);
      } else {
        r := Failure(NoSuchKey);
      }
    }

    /** `PutObjectCommand`: stores `body` under `key`, replacing what was there. */
    method Put(key: string, body: Body, fault: Option<Error>) returns (err: Option<Error>)
      modifies this
      ensures requests == old(requests) + [PutObject(key, body)] && err == fault
      ensures objects == if fault.Some? then old(objects) else old(objects)[key := body]
    {
      requests := requests + [PutObject(key, body)];
      if fault.None? {
        objects := objects[key := body];
      }
      err := fault;
    }

    /** `DeleteObjectCommand`: removes `key`; deleting a missing key succeeds, as S3 does. */
    method Delete(key: string, fault: Option<Error>) returns (err: Option<Error>)
      modifies this
      ensures requests == old(requests) + [DeleteObject(key)] && err == fault
      ensures objects == if fault.Some? then old(objects) else old(objects) - {key}
    {
      requests := requests + [DeleteObject(key)];
      if fault.None? {
        objects := objects - {key};
      }
      err := fault;
    }
  }
}
