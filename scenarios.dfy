/**
 * Request sequences against a fresh, empty database, showing what clients can
 * rely on from the handlers' contracts alone: read-after-write, update
 * replacing every field, delete-then-read, and records created under distinct
 * ids staying independently readable.
 */
module Scenarios {

  import opened Wrappers
  import opened Users
  import opened Json
  import opened Sled
  import opened Handlers

  /** Create, read, update, read, delete, read one user, with no engine errors. */
  method Lifecycle(id: string, first: CreateUserRequest, second: CreateUserRequest) returns (responses: seq<Response>)
    ensures responses == [
      Response(Created, Some(User(id, first.name, first.email))),
      Response(OK, Some(User(id, first.name, first.email))),
      Response(OK, Some(User(id, second.name, second.email))),
      Response(OK, Some(User(id, second.name, second.email))),
      Response(NoContent, None),
      Response(NotFound, None)]
  {
    var db := new Db();
    var app := new AppState(db);
    var created := app.CreateUser(first, id, false);
    var read := app.GetUser(id, false);
    var updated := app.UpdateUser(id, second, false);
    var reread := app.GetUser(id, false);
    var deleted := app.DeleteUser(id, false);
    var gone := app.GetUser(id, false);
    responses := [created, read, updated, reread, deleted, gone];
  }

  /** Two creates with the same body under two distinct fresh ids give two records, each readable under its own id. */
  method TwoCreates(id1: string, id2: string, body: CreateUserRequest) returns (responses: seq<Response>)
    requires id1 != id2
    ensures responses == [
      Response(Created, Some(User(id1, body.name, body.email))),
      Response(Created, Some(User(id2, body.name, body.email))),
      Response(OK, Some(User(id1, body.name, body.email))),
      Response(OK, Some(User(id2, body.name, body.email)))]
  {
    var db := new Db();
    var app := new AppState(db);
    var c1 := app.CreateUser(body, id1, false);
    var c2 := app.CreateUser(body, id2, false);
    var r1 := app.GetUser(id1, false);
    var r2 := app.GetUser(id2, false);
    responses := [c1, c2, r1, r2];
  }

  /** Deleting an id that was never created reports that nothing was removed, not an error; an update of it then creates it. */
  method DeleteAbsentThenUpsert(id: string, body: CreateUserRequest) returns (responses: seq<Response>)
    ensures responses == [
      Response(NotFound, None),
      Response(NotFound, None),
      Response(OK, Some(User(id, body.name, body.email))),
      Response(OK, Some(User(id, body.name, body.email)))]
  {
    var db := new Db();
    var app := new AppState(db);
    var deleted := app.DeleteUser(id, false);
    var read := app.GetUser(id, false);
    var updated := app.UpdateUser(id, body, false);
    var reread := app.GetUser(id, false);
    responses := [deleted, read, updated, reread];
  }
}
