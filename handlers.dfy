/**
 * The record access layer: the shared application state holding the database
 * handle, and the four request handlers. Each handler builds or looks up one
 * user under one key, performs exactly one engine call (the blocking call is
 * modelled as a direct, sequential call) and maps the engine's outcome to one
 * response.
 */
module Handlers {

  import opened Wrappers
  import opened Users
  import opened Json
  import opened Sled

  /** Status codes of RFC 9110: section 15.3.1 (OK), 15.3.2 (Created), 15.3.5 (No Content), 15.5.5 (Not Found) and 15.6.1 (Internal Server Error). */
  const OK: int := 200
  const Created: int := 201
  const NoContent: int := 204
  const NotFound: int := 404
  const InternalServerError: int := 500

  /** A response: its status and, for 200 and 201, the user sent back as JSON. */
  datatype Response = Response(status: int, body: Option<User>)

  /** The store invariant: every entry decodes to a user whose `id` is the entry's key. */
  predicate KeysMatchIds(m: map<string, Text>)
  {
    forall k | k in m :: Decode(m[k]).Some? && Decode(m[k]).value.id == k
  }

  /** The outcome of the insert done by create: 201 with the new user, or 500 with no body. */
  function CreateResponse(user: User, r: EngineResult<Option<Text>>): (resp: Response)
    ensures resp.status == Created <==> r.Ok?
    ensures resp.status == Created ==> resp.body == Some(user)
    ensures resp.status != Created ==> resp == Response(InternalServerError, None)
  {
    match r
    case Ok(_) => Response(Created, Some(user))
    case Err(_) => Response(InternalServerError, None)
  }

  /**
   * The outcome of the read done by get: 404 exactly when the key is absent,
   * 200 with the decoded user when the stored text decodes, and 500 both for an
   * engine error and for stored text that does not decode.
   */
  function ReadResponse(r: EngineResult<Option<Text>>): (resp: Response)
    ensures resp.status in {OK, NotFound, InternalServerError}
    ensures resp.status == NotFound <==> r == Ok(None)
    ensures resp.status == OK <==> r.Ok? && r.value.Some? && Decode(r.value.value).Some?
    ensures resp.status == OK ==> resp.body == Decode(r.value.value)
    ensures resp.status != OK ==> resp.body == None
  {
    match r
    case Ok(Some(stored)) =>
      (match Decode(stored)
       case Some(user) => Response(OK, Some(user))
       case None => Response(InternalServerError, None))
    case Ok(None) => Response(NotFound, None)
    case Err(_) => Response(InternalServerError, None)
  }

  /** The outcome of the insert done by update: 200 with the user, or 500; never 404. */
  function UpdateResponse(user: User, r: EngineResult<Option<Text>>): (resp: Response)
    ensures resp.status in {OK, InternalServerError}
    ensures resp.status == OK <==> r.Ok?
    ensures resp.status == OK ==> resp.body == Some(user)
    ensures resp.status != OK ==> resp.body == None
  {
    match r
    case Ok(_) => Response(OK, Some(user))
    case Err(_) => Response(InternalServerError, None)
  }

  /** The outcome of the remove done by delete: 204 when a value was removed, 404 when there was none, 500 on an engine error. */
  function DeleteResponse(r: EngineResult<Option<Text>>): (resp: Response)
    ensures resp.body == None
    ensures resp.status == NoContent <==> r.Ok? && r.value.Some?
    ensures resp.status == NotFound <==> r == Ok(None)
    ensures resp.status == InternalServerError <==> r.Err?
  {
    match r
    case Ok(Some(_)) => Response(NoContent, None)
    case Ok(None) => Response(NotFound, None)
    case Err(_) => Response(InternalServerError, None)
  }

  /** Writing a user under its own id keeps every key equal to the id stored under it. */
  lemma {:induction false} PutKeepsKeysMatchIds(m: map<string, Text>, u: User)
    requires KeysMatchIds(m)
    ensures KeysMatchIds(m[u.id := Encode(u)])
  {
    DecodeEncode(u);
  }

  /** The shared application state: the one database handle every handler uses. */
  class AppState {
    const db: Db

    constructor (db: Db)
      ensures this.db == db
    {
      this.db := db;
    }

    /**
     * POST /users. Builds the user from the fresh `id` and the request's name
     * and email and inserts it under that same `id`. The id is minted by the
     * caller; nothing here checks that it is unused.
     */
    method CreateUser(userData: CreateUserRequest, id: string, fault: bool) returns (resp: Response)
      modifies db
      ensures fault ==> resp == Response(InternalServerError, None)
      ensures !fault ==> resp == Response(Created, Some(User(id, userData.name, userData.email)))
      ensures !fault ==> db.entries == old(db.entries)[id := Encode(User(id, userData.name, userData.email))]
      ensures !fault ==> Decode(db.entries[id]) == resp.body && resp.body.value.id == id
      ensures !fault && old(KeysMatchIds(db.entries)) ==> KeysMatchIds(db.entries)
    {
      var user := User(id, userData.name, userData.email);
      var r := db.Insert(id, Encode(user), fault);
      resp := CreateResponse(user, r);
      if !fault {
        DecodeEncode(user);
        if old(KeysMatchIds(db.entries)) {
          PutKeepsKeysMatchIds(old(db.entries), user);
        }
      }
    }

    /**
     * GET /users/{id}. One read; never changes the store. An absent key is 404;
     * stored text that does not decode is 500, not 404. A 200 carries exactly
     * the user whose encoding is stored, and under the store invariant that
     * user's id is the requested one.
     */
    method GetUser(id: string, fault: bool) returns (resp: Response)
      ensures fault ==> resp == Response(InternalServerError, None)
      ensures !fault ==> (resp.status == NotFound <==> id !in db.entries)
      ensures !fault && id !in db.entries ==> resp == Response(NotFound, None)
      ensures !fault && id in db.entries && Decode(db.entries[id]).Some? ==> resp == Response(OK, Decode(db.entries[id]))
      ensures !fault && id in db.entries && Decode(db.entries[id]).None? ==> resp == Response(InternalServerError, None)
      ensures resp.status == OK ==> id in db.entries && resp.body.Some? && Encode(resp.body.value) == db.entries[id]
      ensures resp.status == OK && KeysMatchIds(db.entries) ==> resp.body.value.id == id
    {
      var r := db.Get(id, fault);
      resp := ReadResponse(r);
      if resp.status == OK {
        EncodeDecode(db.entries[id], resp.body.value);
      }
    }

    /**
     * PUT /users/{id}. Builds the user from the path `id` and the body's name
     * and email, and overwrites the key whether or not it existed (an upsert):
     * 200 or 500, never 404.
     */
    method UpdateUser(id: string, userData: CreateUserRequest, fault: bool) returns (resp: Response)
      modifies db
      ensures resp.status != NotFound
      ensures fault ==> resp == Response(InternalServerError, None)
      ensures !fault ==> resp == Response(OK, Some(User(id, userData.name, userData.email)))
      ensures !fault ==> db.entries == old(db.entries)[id := Encode(User(id, userData.name, userData.email))]
      ensures !fault ==> Decode(db.entries[id]) == resp.body && resp.body.value.id == id
      ensures !fault && old(KeysMatchIds(db.entries)) ==> KeysMatchIds(db.entries)
    {
      var user := User(id, userData.name, userData.email);
      var r := db.Insert(id, Encode(user), fault);
      resp := UpdateResponse(user, r);
      if !fault {
        DecodeEncode(user);
        if old(KeysMatchIds(db.entries)) {
          PutKeepsKeysMatchIds(old(db.entries), user);
        }
      }
    }

    /**
     * DELETE /users/{id}. One remove: 204 exactly when a value was present,
     * 404 exactly when none was; either way the key is absent afterwards.
     */
    method DeleteUser(id: string, fault: bool) returns (resp: Response)
      modifies db
      ensures resp.body == None
      ensures fault ==> resp.status == InternalServerError
      ensures !fault ==> (resp.status == NoContent <==> id in old(db.entries))
      ensures !fault ==> (resp.status == NotFound <==> id !in old(db.entries))
      ensures !fault ==> db.entries == old(db.entries) - {id}
      ensures !fault && old(KeysMatchIds(db.entries)) ==> KeysMatchIds(db.entries)
    {
      var r := db.Remove(id, fault);
      resp := DeleteResponse(r);
    }
  }
}
