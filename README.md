# sled-crud-api: the user record access layer

This project models the part of the `sled-crud-api` service that does real work: the four
request handlers of `src/main.rs` (`create_user`, `get_user`, `update_user`, `delete_user`).
They share one application state, `AppState`, which holds the handle to an embedded sled
database. Each handler builds or looks up one `User` (`id`, `name`, `email`) under a single key.
It makes exactly one engine call (`insert`, `get` or `remove`) and maps the outcome to one
HTTP status: 201, 200, 204 or 404 (RFC 9110 sections 15.3.2, 15.3.1, 15.3.5 and 15.5.5), or
500 (RFC 9110 section 15.6.1).

Files and modules:

- `users.dfy` (`Users`): the `User` record and the `CreateUserRequest` body. The body has no `id` field.
- `json.dfy` (`Json`): the stored value, which is the compact JSON text the serializer writes for a
  `User`. It uses the serializer's escape table. A strict decoder reads it back. `Decode(Encode(u)) == Some(u)`
  is proved, not assumed. So is the converse: the decoder accepts only the encoder's output.
- `sled.dfy` (`Sled`): the database handle as a class `Db`. Its `entries: map<string, Text>` field is
  changed in place by `Insert` and `Remove`. Each engine call takes a `fault` flag that stands for a
  `sled::Error`.
- `handlers.dfy` (`Handlers`): `AppState` with its `const db: Db`, and the four handlers as methods.
  The result-to-status `match` arms are pure functions. It also holds the store invariant
  `KeysMatchIds`: every key equals the `id` of the user stored under it.
- `scenarios.dfy` (`Scenarios`): request sequences on a fresh database. They are proved from the
  handlers' contracts alone: read after create, update replacing every field, delete then read,
  two creates under distinct ids, and delete of an absent id followed by an upsert.

Inputs the handlers take from outside:
- The freshly minted id of `create_user` (`Uuid::new_v4()`) is a parameter.
- An engine error is a `fault: bool` parameter on each handler and each `Db` call.
- The blocking call through `db_operation` is modelled as a direct, sequential call on `db`.

Two behaviours of the code that a reader might not expect:
- `update_user` is an unconditional upsert. There is no strict "update requires existence" mode.
  So a record can exist without a prior create.
- An undecodable stored value and an engine error both answer 500. They differ from "absent",
  which answers 404.

## Model

| member | source | states |
|---|---|---|
| `Json.Encode` | src/main.rs:59 | The text `to_vec` writes for a user (also at src/main.rs:107). It carries no contract of its own; `DecodeEncode`, `EncodeDecode` and `EncodeInjective` state its properties. |
| `Json.Decode` | src/main.rs:79 | The record `from_slice::<User>` reads from stored text, `None` where it fails. It carries no contract of its own; `DecodeEncode`, `EncodeDecode` and `EncodeInjective` state its properties. |
| `Json.DecodeEncode` | src/main.rs:79 | Reading back the stored text of any user yields that same user (round trip of `to_vec` and `from_slice`). |
| `Json.EncodeDecode` | src/main.rs:79 | Any text the model's strict decoder accepts as user `u` is exactly `Encode(u)`. This is a property of the model's decoder, not of `from_slice`, which also accepts other spellings (see "## Left out"). |
| `Json.EncodeInjective` | src/main.rs:59 | Two different users never share a stored text. |
| `Json.ParseEscaped` | src/main.rs:79 | An escaped string value followed by its closing quote reads back as the original string, with the rest of the text left over. |
| `Json.ParseStringCanonical` | src/main.rs:79 | Whatever the string reader accepts is an escaped string, a closing quote and the rest, so no second spelling of a value is accepted. |
| `Json.DecodeEscapeChar` | src/main.rs:59 | Every character's escape (short escapes, `\u00XX` for other control characters, itself otherwise) reads back as that character and consumes exactly the escape. |
| `Json.DecodeCharCanonical` | src/main.rs:79 | Every character the reader accepts was spelled exactly as the encoder escapes it. |
| `Json.ShortEscapeInverse` | src/main.rs:79 | The two-character escape table (`\"`, `\\`, `\b`, `\t`, `\n`, `\f`, `\r`) and its reading are inverse to each other. |
| `Json.DecodeUnicodeEscape` | src/main.rs:79 | A `\u00XX` escape with lower-case hex digits, for a control character that has no two-character escape, reads back as that control character and consumes six characters. |
| `Json.ParseMemberOf` | src/main.rs:79 | One object member written by the encoder (fixed opening, escaped value, closing quote) reads back as its value, with the rest of the text left over. |
| `Json.ParseMemberCanonical` | src/main.rs:79 | Whatever the member reader accepts is exactly one member as the encoder writes it, followed by the rest. |
| `Sled.Db.Get` | src/main.rs:76 | A point read returns the stored value or `None` when the key is absent, fails only on an engine error, and changes nothing. |
| `Sled.Db.Insert` | src/main.rs:59 | On success the key holds the new value, the previous value is returned, and every other key is unchanged. An engine error is reported as `Err`. |
| `Sled.Db.Remove` | src/main.rs:124 | On success the key is absent, the previous value (if any) is returned, and every other key is unchanged. An engine error is reported as `Err`. |
| `Handlers.CreateResponse` | src/main.rs:57-65 | 201 with the built user exactly when the insert succeeded; otherwise 500 with no body. |
| `Handlers.ReadResponse` | src/main.rs:75-85 | 404 exactly when the engine reports the key absent. 200 exactly when a value is present and decodes, and the body is the decoded user. 500 otherwise, including undecodable text. |
| `Handlers.UpdateResponse` | src/main.rs:105-113 | 200 with the user exactly when the insert succeeded, 500 otherwise, never 404. |
| `Handlers.DeleteResponse` | src/main.rs:123-130 | 204 exactly when a value was removed, 404 exactly when none was present, 500 exactly on an engine error; never a body. |
| `Handlers.KeysMatchIds` | src/main.rs:46-59 | The store invariant: every entry decodes to a user whose `id` is the entry's key. Create and update keep it (they build the user and choose the key from the same id), and delete keeps it. |
| `Handlers.PutKeepsKeysMatchIds` | src/main.rs:46-59 | Storing a user's encoding under that user's own id keeps every key equal to the id decoded from its entry. |
| `Handlers.AppState.constructor` | src/main.rs:21-23 | The application state holds the given database handle. |
| `Handlers.AppState.CreateUser` | src/main.rs:41-66 | On success: 201 with `User{id, name, email}` from the fresh id and the body. The store is the old store with that id mapped to the user's encoding, so key and embedded id agree, the entry decodes to the returned user, other keys are unchanged and `KeysMatchIds` is preserved. On an engine error: 500 and no body. |
| `Handlers.AppState.GetUser` | src/main.rs:68-86 | Never changes the store. 404 exactly when the key is absent. 200 with the decoded user when present and decodable; with the model's strict decoder the stored text is then exactly that user's encoding. 500 for stored text that does not decode and for an engine error. Under `KeysMatchIds` the returned user's id is the requested id. |
| `Handlers.AppState.UpdateUser` | src/main.rs:88-114 | Never 404. On success: 200 with `User{id, name, email}` from the path id and the body, and the key is overwritten whether or not it existed. The new entry decodes to exactly that user, so no old field survives. Other keys are unchanged and `KeysMatchIds` is preserved. On an engine error: 500. |
| `Handlers.AppState.DeleteUser` | src/main.rs:116-131 | On success: 204 exactly when the key was present, 404 exactly when it was absent. Either way the key is absent afterwards, other keys are unchanged and `KeysMatchIds` is preserved. On an engine error: 500. Never a body. |
| `Scenarios.Lifecycle` | src/main.rs:41-131 | On a fresh store, create, read, update, read, delete, read answer 201, 200, 200, 200, 204, 404. The reads return the created user and then the updated user. |
| `Scenarios.TwoCreates` | src/main.rs:41-86 | Two creates with the same body under distinct ids give two records, each read back under its own id. |
| `Scenarios.DeleteAbsentThenUpsert` | src/main.rs:88-131 | Deleting a never-created id answers 404, not 500. A following update of that id creates it (200), and a read then returns it. |

## Left out

- `db_operation` (src/main.rs:26-38): `Arc<Mutex<Db>>`, `spawn_blocking`, `blocking_lock` and the `.await.unwrap()` on the join handle exist only for concurrency. Each engine call is modelled as a direct sequential call, so interleavings of concurrent requests are not modelled, and neither is a panic inside the blocking task.
- `main` (src/main.rs:133-153): opening the database on disk, reading `PORT`, counting workers and starting the server are process bootstrap and I/O. `Sled.Db`'s constructor starts from an empty database instead.
- The actix-web layer: routing macros, `web::Json`/`web::Path` extraction (including the rejection of a malformed request body before a handler runs) and `HttpResponse` building. A response is a status plus an optional `User`.
- `Uuid::new_v4()` is randomness. The id is a parameter of `CreateUser`. Its uniqueness is assumed only where a property needs it (`TwoCreates` requires distinct ids), as the code never checks it. A create whose id is already present overwrites it, exactly as the code does.
- serde_json is modelled only for the `User` shape. The decoder accepts just the encoder's canonical output. Real `from_slice` also accepts whitespace, members in another order, unknown members, `\/`, upper-case hex and other `\u` escapes. Such texts are never written by this service. The model answers 500 for them, where the real decoder may answer 200. `to_vec` is treated as never failing.
- The UTF-8 byte layer under keys and stored JSON text: keys and values are character sequences.
- Sled internals: durability, ordering, flushing and the causes of `sled::Error`. An engine error is only an input flag.
- `Sled.Db.Insert`: after an engine error the contract says nothing about the entries, because the engine promises nothing about a failed write.
- `Sled.Db.Remove`: after an engine error the contract says nothing about the entries, for the same reason.
- `Handlers.AppState.CreateUser`: after an engine error the contract says nothing about the store, and so `KeysMatchIds` is promised only after a successful write.
- `Handlers.AppState.UpdateUser`: after an engine error the contract says nothing about the store, for the same reason.
- `Handlers.AppState.DeleteUser`: after an engine error the contract says nothing about the store, for the same reason.
