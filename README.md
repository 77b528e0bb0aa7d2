# KeepTrack, modelled in Dafny

KeepTrack keeps track of the maintenance of a user's belongings. A user registers and
logs in, owns assets (a car, a boiler, a laptop), and logs maintenance records against
each asset. A record has a service type and date, an optional description, cost and
provider, and an optional next maintenance date with notes. A panel lists, for each asset
and service type, the upcoming maintenance announced by the most recent service. The
backend is an Express service over PostgreSQL. The frontend is a React application with a
session provider, a header, an asset-detail page, an upcoming-maintenance page, a
register page and two dialogs.

This project models that core and proves what it promises.

- **Database.** `Tables` holds the three tables as sequences of rows, the schema's
  constraints (`Consistent`), and each repository statement as a function from the
  database before to the database after. `Store.Database` is the same database as an
  object: its methods update the tables in place and are specified by those functions.
  Keys are PostgreSQL `integer` (int4) columns fed by SERIAL sequences: an id outside
  that range is refused with PostgreSQL's out-of-range error, and an insert once a
  sequence has handed out 2147483647 fails with its `nextval` error.
- **Services.** `RecordService`, `AssetService` and `AuthService` are the service
  classes: ownership checks, validations with their Portuguese messages, and writes. Each
  write is a method on the database, tied to a pure outcome function. `Panel` is the
  upcoming-maintenance query.
- **HTTP layer.** `RecordController` and `AssetController` map service outcomes to
  status codes. They do this by looking for phrases in the error message, and `Phrases`
  proves which message holds which phrase. `AuthMiddleware` reads the bearer token;
  `Validators` is the register and login request checking.
- **Frontend.** `AuthContext` is the session provider, as a class whose fields are its
  state hooks. `Header`, `RegisterPage`, `RecordForm`, `AssetForm`, `AssetDetailPage`
  and `UpcomingPage` are the components, with their handlers as methods. `DateDisplay`
  is their shared date formatting.
- **Support.** `Dates` gives calendar dates, day numbers and the YYYY-MM-DD form. `Text`
  covers trimming, searching, splitting and number parsing, following JavaScript's rules.
  `Sequences` provides ordering and filtering.

Network calls, password hashing and token signing are not run by the model. Each
operation that depends on one receives its outcome as a parameter: a `Result`, or a
function such as `verify` or `compare`.

## Model

| member | source | states |
|---|---|---|
| Tables.EmptyConsistent | BackEnd/src/database/init.ts:4-57 | The empty database the schema script creates, with every SERIAL counter at 1, meets all the schema's constraints, including that no counter is past the int4 range |
| Tables.StoredIdsInt4 | BackEnd/src/database/init.ts:6-37 | In a consistent database every stored id, owner id and asset id fits the int4 range of the SERIAL and INTEGER columns |
| Tables.UserById | BackEnd/src/repositories/userRepository.ts:17-21 | The lookup answers null exactly when no user has the id; otherwise it answers a stored user with that id |
| Tables.UserByIdOfMember | BackEnd/src/repositories/userRepository.ts:17-21 | With primary keys unique, looking up a stored user's id finds that same user |
| Tables.UserByEmail | BackEnd/src/repositories/userRepository.ts:8-12 | The lookup answers null exactly when no user has the email; otherwise it answers a stored user with that email |
| Tables.UserByEmailOfMember | BackEnd/src/repositories/userRepository.ts:8-12 | With emails UNIQUE, looking up a stored user's email finds that same user |
| Tables.OwnedAsset | BackEnd/src/repositories/AssetRepository.ts:22-26 | The lookup answers null exactly when no asset matches both the id and the owner; otherwise it answers a stored asset matching both |
| Tables.RecordById | BackEnd/src/repositories/MaintenanceRecordRepository.ts:53-57 | The lookup answers null exactly when no record has the id; otherwise it answers a stored record with that id |
| Tables.RecordByIdOfMember | BackEnd/src/repositories/MaintenanceRecordRepository.ts:53-57 | With primary keys unique, looking up a stored record's id finds that same record |
| Tables.AssetsOfUserExact | BackEnd/src/repositories/AssetRepository.ts:31-35 | `findAllByUserId` returns exactly the user's assets, each as often as stored, in ascending name order (names compared by code point) |
| Tables.RecordsOfAssetExact | BackEnd/src/repositories/MaintenanceRecordRepository.ts:63-71 | `findAllByAssetId` returns exactly the asset's records, each as often as stored, sorted by service date and then creation time, most recent first |
| Tables.RecencyNotBefore | BackEnd/src/repositories/MaintenanceRecordRepository.ts:67 | Ordering by (service date, creation time) descending never puts an earlier service date first |
| Tables.InsertUser | BackEnd/src/repositories/userRepository.ts:26-39 | The insert succeeds exactly when the `users_id_seq` sequence has an int4 value left and the email is unused, and then appends one row with the given name, email and hash under a fresh id; an exhausted sequence fails with the `nextval` error and a taken email with the UNIQUE violation, and either leaves the tables as they were; consistency is kept |
| Tables.PatchUser | BackEnd/src/repositories/userRepository.ts:53-61 | For a body holding only id, name, email and password hash: the updated row carries each supplied column's new value, keeps every other column, keeps its id and creation time, and is stamped with the update time |
| Tables.UpdateUser | BackEnd/src/repositories/userRepository.ts:44-65 | With no column besides `id` it answers null and writes nothing; a row comes back only for an existing id, with that id; an email taken by another user fails and changes nothing; other users' rows never change; consistency is kept |
| Tables.UpdateUserConsistent | BackEnd/src/repositories/userRepository.ts:56-61 | Updating one user, with an email no other user has, keeps every schema constraint, unique emails included |
| Tables.PatchUsersKeepsIds | BackEnd/src/repositories/userRepository.ts:48 | Because the `id` key is filtered out, an update never changes the set of user ids |
| Tables.DeleteUser | BackEnd/src/repositories/userRepository.ts:70-74 | The delete reports true exactly when the id existed; afterwards exactly the other users remain, exactly the assets of other users remain, and a record remains exactly when its asset belongs to another user (the two ON DELETE CASCADE constraints); consistency is kept |
| Tables.DeleteUserMembers | BackEnd/src/repositories/userRepository.ts:70-74 | What the delete and its cascades keep: the other users, the other users' assets, and the records whose asset was not removed |
| Tables.GoneIffOwned | BackEnd/src/database/init.ts:25-28 | With asset ids unique, a record's asset is among the deleted user's assets exactly when it is not held by any other user |
| Tables.DeleteUserConsistent | BackEnd/src/database/init.ts:25-50 | Deleting a user with its cascades leaves no asset without its user and no record without its asset, and keeps keys and emails unique |
| Tables.InsertAsset | BackEnd/src/repositories/AssetRepository.ts:8-17 | The insert succeeds exactly when the `assets_id_seq` sequence has an int4 value left and the user exists (`fk_user`), and then appends one row with the given owner, name and description under a fresh id; an exhausted sequence fails with the `nextval` error; on failure the assets are unchanged; consistency is kept |
| Tables.PatchAsset | BackEnd/src/repositories/AssetRepository.ts:53-61 | For a body holding only name and description: the updated asset carries the supplied name, the supplied description or NULL for a `null` one, keeps what was not supplied, keeps id, owner and creation time, and is stamped with the update time |
| Tables.UpdateAsset | BackEnd/src/repositories/AssetRepository.ts:40-65 | For a body holding only name and description: with no keys it is the owned-asset lookup and writes nothing; otherwise the asset matching both id and owner, and only it, is updated and returned; no match answers null; a `null` name fails NOT NULL and changes nothing; consistency is kept |
| Tables.UpdateAssetConsistent | BackEnd/src/repositories/AssetRepository.ts:57-61 | Updating the matching asset with a non-null name keeps every schema constraint |
| Tables.PatchAssetsKeepsIds | BackEnd/src/repositories/AssetRepository.ts:57-61 | An update whose body holds only name and description never changes the set of asset ids, so no record loses its asset |
| Tables.DeleteAsset | BackEnd/src/repositories/AssetRepository.ts:70-74 | The delete reports true exactly when an asset matches both id and owner; afterwards exactly the non-matching assets remain, and the asset's records are gone exactly when it was deleted (ON DELETE CASCADE); consistency is kept |
| Tables.DeleteAssetFacts | BackEnd/src/database/init.ts:47-50 | The asset delete keeps every record whose asset survives, and keeps keys unique |
| Tables.InsertRecord | BackEnd/src/repositories/MaintenanceRecordRepository.ts:13-46 | The insert succeeds exactly when the `maintenance_records_id_seq` sequence has an int4 value left and the asset exists (`fk_asset`), and then appends the row built from the supplied fields under a fresh id; an exhausted sequence fails with the `nextval` error; on failure the records are unchanged; with calendar dates, consistency is kept |
| Tables.Assign | BackEnd/src/repositories/MaintenanceRecordRepository.ts:103-116 | A nullable column keeps its value when its key is left out, becomes NULL for `null`, and takes a supplied value otherwise |
| Tables.PatchRecord | BackEnd/src/repositories/MaintenanceRecordRepository.ts:94-131 | The updated record carries every supplied column's new value (NULL for a `null` next date), keeps the rest, keeps id, asset and creation time, and is stamped with the update time |
| Tables.UpdateRecord | BackEnd/src/repositories/MaintenanceRecordRepository.ts:77-137 | With no supplied field it is `findById` and writes nothing; otherwise the record with that id, and only it, is updated and returned, and a missing id answers null with the records unchanged; with calendar dates, consistency is kept |
| Tables.UpdateRecordConsistent | BackEnd/src/repositories/MaintenanceRecordRepository.ts:129-135 | Updating one record with calendar dates keeps every schema constraint |
| Tables.DeleteRecord | BackEnd/src/repositories/MaintenanceRecordRepository.ts:143-147 | The delete reports true exactly when a record had the id; afterwards exactly the records with other ids remain; consistency is kept |
| Store.Database.constructor | BackEnd/src/database/init.ts:4-57 | The database starts empty and consistent |
| Store.Database.CreateUser | BackEnd/src/repositories/userRepository.ts:26-39 | The tables, counters and clock afterwards, and the result, are those of the insert statement, and consistency is kept |
| Store.Database.UpdateUser | BackEnd/src/repositories/userRepository.ts:44-65 | The new state and the result are those of the user update statement, and consistency is kept |
| Store.Database.DeleteUser | BackEnd/src/repositories/userRepository.ts:70-74 | The new state and the result are those of the user delete with its cascades, and consistency is kept |
| Store.Database.CreateAsset | BackEnd/src/repositories/AssetRepository.ts:8-17 | The new state and the result are those of the asset insert, and consistency is kept |
| Store.Database.UpdateAsset | BackEnd/src/repositories/AssetRepository.ts:40-65 | The new state and the result are those of the asset update, and consistency is kept |
| Store.Database.DeleteAsset | BackEnd/src/repositories/AssetRepository.ts:70-74 | The new state and the result are those of the asset delete with its cascade, and consistency is kept |
| Store.Database.CreateRecord | BackEnd/src/repositories/MaintenanceRecordRepository.ts:13-46 | The new state and the result are those of the record insert, and consistency is kept |
| Store.Database.UpdateRecord | BackEnd/src/repositories/MaintenanceRecordRepository.ts:77-137 | The new state and the result are those of the record update, and consistency is kept |
| Store.Database.DeleteRecord | BackEnd/src/repositories/MaintenanceRecordRepository.ts:143-147 | The new state and the result are those of the record delete, and consistency is kept |
| RecordService.ParseDates | BackEnd/src/services/MaintenanceRecordService.ts:15-40 | A non-empty service date that is no date fails with 'Data do serviço inválida.', checked before the next date; a non-empty next date that is no date fails with 'Data da próxima manutenção inválida.'; otherwise the service date is present exactly when one was sent, and the next date is kept `null` for `null`, parsed when non-empty, and absent otherwise; parsed dates are calendar dates |
| RecordService.MapRecord | BackEnd/src/services/MaintenanceRecordService.ts:229-265 | The response carries the row's columns unchanged, a next date exactly when the row has one, and `asset_name` exactly when a non-empty one is supplied |
| RecordService.MapRecordDatesRoundTrip | BackEnd/src/services/MaintenanceRecordService.ts:233-244 | For years 1000 to 9999 the dates in a response are YYYY-MM-DD texts that parse back to the stored dates |
| RecordService.MapRecords | BackEnd/src/services/MaintenanceRecordService.ts:125 | Mapping a list maps each row in place and keeps the length and order |
| RecordService.ValidateCreate | BackEnd/src/services/MaintenanceRecordService.ts:55-82 | A missing or empty service date, then an unparsable date, then a blank or missing service type, then a next date before the service date, each fail with their own message in that order; the request passes exactly when none applies, and the new row then holds the request's fields, calendar dates, and a next date not before the service date |
| RecordService.CreateRejectsNextBeforeService | BackEnd/src/services/MaintenanceRecordService.ts:72-74 | A request that passes every other check but whose next date precedes its service date is refused with the date-order message |
| RecordService.CreateChecksOwnershipFirst | BackEnd/src/services/MaintenanceRecordService.ts:49-53 | An asset id outside int4 fails with Postgres's out-of-range error; an in-range missing or foreign asset fails with 'Ativo não encontrado ou não pertence ao usuário.'; both whatever the rest of the request holds, and nothing is written |
| RecordService.CreateRejectsWithoutInsert | BackEnd/src/services/MaintenanceRecordService.ts:55-74 | A request that fails validation writes nothing, and on an owned asset answers with the validation error |
| RecordService.CreateInsertsOneRow | BackEnd/src/services/MaintenanceRecordService.ts:77-85 | A valid request on an owned asset, while the record sequence has ids left, appends exactly one new row holding the request's fields, under an id no earlier record has, with its dates in order; the answer is that row mapped, and the database stays consistent |
| RecordService.CreateRecord | BackEnd/src/services/MaintenanceRecordService.ts:45-86 | The database afterwards and the answer are those of the create outcome, and consistency is kept |
| RecordService.GetRecord | BackEnd/src/services/MaintenanceRecordService.ts:92-108 | An id outside int4 fails with the out-of-range error; otherwise the answer is null exactly when no record has the id, the not-found-or-denied error exactly when the record exists but its asset is not the caller's, and else that record, mapped |
| RecordService.OnlyRecordWithId | BackEnd/src/database/init.ts:36 | A stored record is the only record with its id |
| RecordService.GetAllRecords | BackEnd/src/services/MaintenanceRecordService.ts:113-126 | The call fails exactly when the id is outside int4 (the out-of-range error) or the asset is not the caller's (the asset-not-owned message); otherwise it answers the asset's records in `findAllByAssetId` order, each mapped |
| RecordService.PanelResponses | BackEnd/src/services/MaintenanceRecordService.ts:213-223 | The panel answers one response per upcoming row, in panel order, each the mapped stored record with `asset_name` set from the joined asset |
| RecordService.PanelRowsStored | BackEnd/src/repositories/MaintenanceRecordRepository.ts:174-183 | Every panel row joins a record that is stored, so its dates are calendar dates |
| RecordService.ValidateUpdate | BackEnd/src/services/MaintenanceRecordService.ts:149-178 | An unparsable date fails first; then a `null` service type fails as `trim` on null; then a blank service type fails with 'O tipo de serviço não pode ser vazio.'; then the request passes exactly when the effective next date is not before the effective service date; a passing patch carries exactly the keys that were sent and keeps the dates in order for the patched row |
| RecordService.UpdateNullNextSkipsOrder | BackEnd/src/services/MaintenanceRecordService.ts:161-165 | Sending `next_maintenance_date: null` with otherwise acceptable fields always passes and clears the next date |
| RecordService.UpdateChecksExistenceThenOwnership | BackEnd/src/services/MaintenanceRecordService.ts:137-147 | An id outside int4 fails with the out-of-range error; then a missing record fails with 'Registro de manutenção não encontrado.'; then a record on someone else's asset with the access-denied message; all before any validation and without writing |
| RecordService.UpdateKeepsDatesOrdered | BackEnd/src/services/MaintenanceRecordService.ts:160-167 | After a successful update the database is consistent, every other record is unchanged, and the updated record's next date is not before its service date |
| RecordService.UpdateOkWrites | BackEnd/src/services/MaintenanceRecordService.ts:180-184 | A successful update found the record and validated the request, and wrote nothing when no field was sent, or else exactly what the repository's update writes |
| RecordService.UpdateWithoutFieldsWritesNothing | BackEnd/src/services/MaintenanceRecordService.ts:180-182 | A request with no field on an owned record whose dates are in order writes nothing and answers the record as stored |
| RecordService.UpdateRecord | BackEnd/src/services/MaintenanceRecordService.ts:132-188 | The database afterwards and the answer are those of the update outcome, and consistency is kept |
| RecordService.DeleteRemovesOnlyOwnedRecord | BackEnd/src/services/MaintenanceRecordService.ts:194-208 | An id outside int4 fails with the out-of-range error and an in-range missing record with not-found; any failure writes nothing; a success answers true, concerns a record on the caller's asset, and removes exactly the records with that id |
| RecordService.DeleteRecord | BackEnd/src/services/MaintenanceRecordService.ts:194-208 | The database afterwards and the answer are those of the delete outcome, and consistency is kept |
| Panel.AssetById | BackEnd/src/repositories/MaintenanceRecordRepository.ts:181 | The join partner of a record is a stored asset with the record's asset id, and there is none exactly when no asset has that id |
| Panel.Joined | BackEnd/src/repositories/MaintenanceRecordRepository.ts:176-182 | The join keeps exactly the caller's records, each once, each paired with its asset's name |
| Panel.RankedFrom | BackEnd/src/repositories/MaintenanceRecordRepository.ts:179 | The `rn = 1` rows are exactly the rows ranked first in their (asset, service type) group |
| Panel.RankedFirstUnique | BackEnd/src/repositories/MaintenanceRecordRepository.ts:179 | `ROW_NUMBER` gives `rn = 1` to at most one row of a group |
| Panel.RankedFromDistinct | BackEnd/src/repositories/MaintenanceRecordRepository.ts:179-198 | No two `rn = 1` rows share an (asset, service type) group |
| Panel.RankedFirstIsLatest | BackEnd/src/repositories/MaintenanceRecordRepository.ts:179 | The row ranked first in a group was serviced no earlier than any other row of that group |
| Panel.UpcomingMembers | BackEnd/src/repositories/MaintenanceRecordRepository.ts:197-198 | The panel holds exactly the `rn = 1` rows that have a next maintenance date |
| Panel.UpcomingRowsOwned | BackEnd/src/repositories/MaintenanceRecordRepository.ts:176-198 | Every panel row is a stored record of the caller, with a next maintenance date, paired with its asset's name |
| Panel.UpcomingRowsAreLatest | BackEnd/src/repositories/MaintenanceRecordRepository.ts:179-198 | No record of the caller in a panel row's group was serviced later, so a group whose latest record has no next date never shows an older record instead |
| Panel.UpcomingOncePerGroup | BackEnd/src/repositories/MaintenanceRecordRepository.ts:179-198 | Each (asset, service type) group appears at most once on the panel |
| Panel.UpcomingSorted | BackEnd/src/repositories/MaintenanceRecordRepository.ts:199 | The panel is ordered by next maintenance date, earliest first |
| Panel.NextKeyNotBefore | BackEnd/src/repositories/MaintenanceRecordRepository.ts:199 | Ordering by the next date's (year, month, day) never puts a later date before an earlier one |
| Panel.UpcomingIncludesLatest | BackEnd/src/repositories/MaintenanceRecordRepository.ts:174-199 | A record of the caller serviced strictly after every other record of its group, and naming a next date, is on the panel |
| Panel.LatestRankedFirst | BackEnd/src/repositories/MaintenanceRecordRepository.ts:179 | The joined row of a record serviced strictly after every other record of its group gets `rn = 1` |
| Panel.JoinedDistinctIds | BackEnd/src/repositories/MaintenanceRecordRepository.ts:180-181 | With record ids unique, no two joined rows come from records with the same id |
| AssetService.MapAssetOmitsOwner | BackEnd/src/services/AssetService.ts:92-100 | Two rows give the same response exactly when they differ at most in their owner: the response drops `user_id` and keeps every other column |
| AssetService.MapAssets | BackEnd/src/services/AssetService.ts:45 | Mapping a list maps each row in place and keeps the length and order |
| AssetService.CreateAssetRequiresName | BackEnd/src/services/AssetService.ts:18-20 | A missing name, or one made only of whitespace, is refused with 'O nome do ativo é obrigatório.' and nothing is written |
| AssetService.CreateAssetStoresCallerAsOwner | BackEnd/src/services/AssetService.ts:13-24 | With a non-blank name, an existing caller and ids left in the asset sequence, exactly one asset is appended, owned by the caller and holding the name and description as sent; the answer is that asset without its owner; the database stays consistent |
| AssetService.CreateAsset | BackEnd/src/services/AssetService.ts:13-24 | The database afterwards and the answer are those of the create outcome, and consistency is kept |
| AssetService.GetAsset | BackEnd/src/services/AssetService.ts:29-38 | The call fails exactly when the id is outside int4, with the out-of-range error; otherwise the answer is null exactly when no asset has both the id and the caller as owner, and else such an asset, mapped |
| AssetService.GetAllAssets | BackEnd/src/services/AssetService.ts:43-46 | The listing is the owner's assets in `findAllByUserId` order, each mapped |
| AssetService.GetAllAssetsOnlyMine | BackEnd/src/services/AssetService.ts:43-46 | Every listed asset belongs to the caller |
| AssetService.GetAllAssetsAllMine | BackEnd/src/services/AssetService.ts:43-46 | Every asset of the caller is listed |
| AssetService.GetAllAssetsSorted | BackEnd/src/services/AssetService.ts:43-46 | The listing is in ascending name order, names compared by code point |
| AssetService.UpdateAssetChecksOwnershipFirst | BackEnd/src/services/AssetService.ts:56-63 | An id outside int4 fails with the out-of-range error; an in-range missing or foreign asset fails with 'Ativo não encontrado ou não pertence ao usuário.'; both whatever the request holds, and nothing is written |
| AssetService.UpdateAssetSetsSuppliedKeys | BackEnd/src/services/AssetService.ts:51-74 | For a body holding only name and description, a successful update keeps the database consistent, changes only the caller's asset, sets exactly the supplied name and description on it, keeps its owner and creation time, never stores a blank supplied name, and answers the updated asset |
| AssetService.UpdateAsset | BackEnd/src/services/AssetService.ts:51-74 | The database afterwards and the answer are those of the update outcome, and consistency is kept |
| AssetService.DeleteAssetCascades | BackEnd/src/services/AssetService.ts:80-87 | An id outside int4 fails with the out-of-range error and an in-range missing or foreign asset with the not-owned message; any failure writes nothing; a success answers true and removes exactly the caller's asset and that asset's records; the users are never touched |
| AssetService.DeleteAsset | BackEnd/src/services/AssetService.ts:80-87 | The database afterwards and the answer are those of the delete outcome, and consistency is kept |
| AuthService.ToResponseOmitsSecrets | BackEnd/src/services/authService.ts:33-38 | Two rows give the same user response exactly when they differ at most in password hash and update time: the hash never reaches the response |
| AuthService.RegisterRejectsTakenEmail | BackEnd/src/services/authService.ts:12-15 | An email some user already has is refused with 'Email já está em uso' and the database, SERIAL counter included, is untouched |
| AuthService.RegisterStoresHash | BackEnd/src/services/authService.ts:17-40 | A fresh email succeeds whenever the user sequence has ids left: exactly one row is appended holding the name, the email and the hash of the password under a new id; the answer is that row without its hash and a token signed over its id and email; the database stays consistent |
| AuthService.RegisterFailures | BackEnd/src/services/authService.ts:10-41 | Registration fails exactly when the email is taken or the user sequence is exhausted, with 'Email já está em uso' in the first case and the `nextval` error in the second, and nothing written |
| AuthService.Register | BackEnd/src/services/authService.ts:10-41 | The database afterwards and the answer are those of the registration outcome, and consistency is kept |
| AuthService.Login | BackEnd/src/services/authService.ts:46-74 | Every failure is 'Invalid credentials'; a success is the session of a stored user with that email whose hash the password matches |
| AuthService.LoginSucceedsIffPasswordMatches | BackEnd/src/services/authService.ts:48-57 | With emails unique, login for a stored user's email succeeds exactly when the password matches that user's hash, and then answers that user's session |
| AuthService.LoginHidesWhichCheckFailed | BackEnd/src/services/authService.ts:49-57 | An unknown email and a wrong password get the identical answer |
| AuthService.GetUserById | BackEnd/src/services/authService.ts:79-89 | The answer is null exactly when no user has the id; otherwise it is that user without the hash |
| AuthService.RegisteredUserIsFound | BackEnd/src/services/authService.ts:79-89 | Right after a registration, looking up the new user's id answers the user the registration returned |
| RecordController.CreateRecordFailureClasses | BackEnd/src/controllers/MaintenanceRecordController.ts:21-31 | A failure of `createRecord` is 400 exactly when its message holds 'obrigatório' or 'inválid', else 404 exactly when it holds 'não encontrado' or 'não pertence', else 500; 400 and 404 echo the message, 500 carries it as details |
| RecordController.CreateForeignAssetIs404 | BackEnd/src/controllers/MaintenanceRecordController.ts:19-29 | A missing or foreign asset is answered 404 with the service's message when its id is in int4, and 500 with the out-of-range details when it is not; nothing is written |
| RecordController.CreateMissingServiceDateIs500 | BackEnd/src/controllers/MaintenanceRecordController.ts:24-29 | A request without a service date is answered 500, since the service says 'obrigatória' and the controller looks for 'obrigatório' |
| RecordController.CreateNextBeforeServiceIs500 | BackEnd/src/controllers/MaintenanceRecordController.ts:24-29 | A next date before the service date is answered 500 on create, since its message holds none of the phrases looked for |
| RecordController.CreateInvalidFieldIs400 | BackEnd/src/controllers/MaintenanceRecordController.ts:24-25 | An unparsable date, or a missing or blank service type, is answered 400 with one of the three service messages, and nothing is written |
| RecordController.CreateValidIs201 | BackEnd/src/controllers/MaintenanceRecordController.ts:19-20 | A valid request on an owned asset, while the record sequence has ids left, is answered 201 with the success message and the one row it appended |
| RecordController.CreateExhaustedSequenceIs500 | BackEnd/src/controllers/MaintenanceRecordController.ts:19-29 | A valid request on an owned asset made once the record sequence is exhausted is answered 500 with the `nextval` error as details, and nothing is written |
| RecordController.GetRecordAnswers | BackEnd/src/controllers/MaintenanceRecordController.ts:38-62 | With a numeric id: outside int4 it is 500 with the out-of-range details; an unknown record is 404 'Registro de manutenção não encontrado.'; a record on someone else's asset is 404 with the service's message; the caller's record is 200 with that record |
| RecordController.GetAllRecordsAnswers | BackEnd/src/controllers/MaintenanceRecordController.ts:68-88 | With a numeric id: outside int4 it is 500 with the out-of-range details; a missing or foreign asset is 404 with the service's message; the caller's asset is 200 with its records, most recent service first |
| RecordController.UpdateRecordFailureClasses | BackEnd/src/controllers/MaintenanceRecordController.ts:112-121 | A failure of `updateRecord` is 400 exactly when its message holds 'obrigatório', 'inválid', 'não pode ser anterior' or 'vazio', else 404 exactly when it holds 'não encontrado' or 'Acesso negado', else 500 |
| RecordController.NextBeforeServiceStatusDiffers | BackEnd/src/controllers/MaintenanceRecordController.ts:24-114 | The same date-order message is answered 500 by create and 400 by update |
| RecordController.UpdateMissingRecordIs404 | BackEnd/src/controllers/MaintenanceRecordController.ts:105-119 | With a numeric id and no record under it, the answer is 404 with the service's message when the id is in int4 and 500 with the out-of-range details when it is not; nothing is written |
| RecordController.UpdateForeignRecordIs404 | BackEnd/src/controllers/MaintenanceRecordController.ts:105-117 | A record on someone else's asset is answered 404 with 'Acesso negado…', before any validation, and nothing is written |
| RecordController.UpdateNullServiceTypeIs500 | BackEnd/src/controllers/MaintenanceRecordController.ts:113-119 | On the caller's record, once the dates parse, a `null` service type is answered 500, since the `trim` error holds none of the phrases looked for |
| RecordController.UpdateBlankServiceTypeIs400 | BackEnd/src/controllers/MaintenanceRecordController.ts:113-115 | On the caller's record, once the dates parse, a blank service type is answered 400 with the 'vazio' message |
| RecordController.UpdateNextBeforeServiceIs400 | BackEnd/src/controllers/MaintenanceRecordController.ts:113-115 | On the caller's record, effective dates out of order are answered 400 with the date-order message, and nothing is written |
| RecordController.DeleteMissingRecordIs404 | BackEnd/src/controllers/MaintenanceRecordController.ts:138-150 | With a numeric id and no record under it, the answer is 404 with the service's message when the id is in int4 and 500 with the out-of-range details when it is not; nothing is written |
| RecordController.DeleteRecordAnswers | BackEnd/src/controllers/MaintenanceRecordController.ts:128-153 | With a numeric id, a delete is 500 with the out-of-range details exactly when the id is outside int4, or 404, both with nothing written; or else 200 with the success message and exactly the records with that id removed |
| RecordController.DeleteForeignRecordIs404 | BackEnd/src/controllers/MaintenanceRecordController.ts:138-148 | A record on someone else's asset is answered 404 with 'Acesso negado…', and nothing is written |
| RecordController.PanelReply | BackEnd/src/controllers/MaintenanceRecordController.ts:159-168 | The panel is answered 200 exactly when the service succeeds; every failure is 500 with the fixed text and the message as details |
| RecordController.InvalidIdSkipsService | BackEnd/src/controllers/MaintenanceRecordController.ts:41-136 | An id that `parseInt` reads as NaN is answered 400 by every handler that takes one, with nothing written |
| AssetController.CreateAssetFailureClasses | BackEnd/src/controllers/AssetController.ts:18-26 | A failure of `createAsset` is 400 with the message exactly when the message holds 'obrigatório' or 'inválido'; every other failure is 500 with the fixed text and no details |
| AssetController.CreateAssetWithoutNameIs400 | BackEnd/src/controllers/AssetController.ts:16-22 | A missing or blank name is answered 400 with 'O nome do ativo é obrigatório.', and nothing is written |
| AssetController.CreateAssetForMissingUserIs500 | BackEnd/src/controllers/AssetController.ts:16-25 | A named asset for a caller whose user row is gone hits the foreign key, and one made when the asset sequence is exhausted hits the `nextval` error; either is answered with a bare 500 |
| AssetController.CreateAssetValidIs201 | BackEnd/src/controllers/AssetController.ts:16-17 | A named asset for an existing caller, while the asset sequence has ids left, is answered 201 with the success message and the one asset appended |
| AssetController.GetAssetAnswers | BackEnd/src/controllers/AssetController.ts:33-53 | With a numeric id, the answer is 200, 404 or 500: 500 with the out-of-range details exactly when the id is outside int4; 404 'Ativo não encontrado.' when the caller has no asset with an in-range id; 200 only with one of the caller's assets with that id |
| AssetController.GetAllAssetsReply | BackEnd/src/controllers/AssetController.ts:59-68 | The listing is answered 200 exactly when the service succeeds; a failure is 500 with the fixed text and the message as details |
| AssetController.UpdateAssetFailureClasses | BackEnd/src/controllers/AssetController.ts:93-102 | A failure of `updateAsset` is 404 exactly when its message holds 'não encontrado' or 'não pertence', checked first; else 400 exactly when it holds 'obrigatório', 'inválido' or 'vazio'; else 500 |
| AssetController.UpdateAssetFailures | BackEnd/src/controllers/AssetController.ts:85-101 | With a numeric id: outside int4 it is 500 with the out-of-range details; a missing or foreign asset is 404; on the caller's asset a `null` name is 500 (the `trim` error) and a blank name is 400 with the 'vazio' message; none of them writes anything |
| AssetController.UpdateAssetValidIs200 | BackEnd/src/controllers/AssetController.ts:85-92 | A successful update of the caller's asset is answered 200 with the success message |
| AssetController.DeleteAssetAnswers | BackEnd/src/controllers/AssetController.ts:109-135 | With a numeric id: outside int4 it is 500 with the out-of-range details, and a missing or foreign asset is 404, both with nothing written; the caller's asset is 200 and is gone together with its maintenance records |
| AssetController.InvalidAssetIdSkipsService | BackEnd/src/controllers/AssetController.ts:36-117 | An id that `parseInt` reads as NaN is answered 400 'ID do ativo inválido.' by every handler that takes one, with nothing written |
| Validators.RegisterMessagesDistinct | BackEnd/src/utils/validators.ts:9-20 | The three register messages are different texts |
| Validators.RegisterErrors | BackEnd/src/utils/validators.ts:5-21 | A register body yields no message exactly when the trimmed name has 2 to 100 characters, the password has at least 6, and the pattern matches; each message appears exactly when its own check fails |
| Validators.ThreeChecks | BackEnd/src/utils/validators.ts:5-21 | Three checks with distinct messages report each message exactly when its check fails, and nothing exactly when all pass |
| Validators.NameValidIgnoresPadding | BackEnd/src/utils/validators.ts:6-9 | Because the name is trimmed before its length is checked, a name is accepted exactly when its trimmed form is |
| Validators.AnyThenBeforeLineBreak | BackEnd/src/utils/validators.ts:19 | A lookahead `(?=.*[class])` succeeds exactly when a character of the class occurs before the first line terminator |
| Validators.PatternOnOneLine | BackEnd/src/utils/validators.ts:19-20 | On a password without line breaks, the pattern matches exactly when a lowercase letter, an uppercase letter and a digit each occur somewhere |
| Validators.PatternStopsAtLineBreak | BackEnd/src/utils/validators.ts:19 | A class that occurs only after a line break does not count: 'aB\n1xxxx' fails the pattern |
| Validators.LoginErrors | BackEnd/src/utils/validators.ts:24-33 | A login password yields no message exactly when it is not empty |
| Validators.LoginAcceptsBlankPassword | BackEnd/src/utils/validators.ts:16-32 | A password of six spaces passes the login check, which does not trim, while the register pattern refuses it |
| AuthMiddleware.BearerToken | BackEnd/src/middleware/auth.ts:12-14 | A token is found only in a present header, is the header's second space-separated field, and is non-empty |
| AuthMiddleware.TokenIsSecondField | BackEnd/src/middleware/auth.ts:14 | For a header made of space-free words, the token is the second word, whatever the first says and whatever follows |
| AuthMiddleware.NoSecondFieldNoToken | BackEnd/src/middleware/auth.ts:14-19 | A header without a space, or whose second field is empty ('Bearer ' or a double space), yields no token |
| AuthMiddleware.AuthenticateDecides | BackEnd/src/middleware/auth.ts:11-28 | A request without a header is 401 'Token de acesso requerido'; the handler runs exactly when a token is found and verifies, with its payload as the user; every stop is that 401 or 403 'Token inválido' |
| AuthMiddleware.SchemeNeverChecked | BackEnd/src/middleware/auth.ts:14-27 | Any scheme word is accepted: `<scheme> <token>` runs the handler with the payload when the token verifies, and is 403 otherwise |
| RegisterPage.RegisterInOrder | FrontEnd/src/pages/RegisterPage.tsx:23-39 | The submit reports the first of three conditions that holds: passwords differ, then a blank name, email or password, then a password shorter than six characters |
| RegisterPage.RegisterChecksPassIff | FrontEnd/src/pages/RegisterPage.tsx:27-39 | The page submits exactly when the two passwords are equal, none of name, email and password is blank, and the password has at least six characters |
| RegisterPage.MismatchReportedFirst | FrontEnd/src/pages/RegisterPage.tsx:27-30 | Differing passwords are what gets reported, whatever else is wrong |
| RegisterPage.PageWeakerThanServer | FrontEnd/src/pages/RegisterPage.tsx:31-39 | A name the server accepts is never blank, but a name of one character after trimming passes the page and is refused by the server; a password the page accepts meets the server's length rule |
| RegisterPage.Page.HandleSubmit | FrontEnd/src/pages/RegisterPage.tsx:23-46 | The inputs are unchanged; the form error ends as the first failing check's message, or cleared; `register` is called exactly when no check fails, with the name, email and password as typed |
| Forms.FirstFailing | FrontEnd/src/components/MaintenanceRecordForm.tsx:108-145 | A chain of checks reports nothing exactly when every check passes, and otherwise the message of a failing check with no failing check before it |
| Forms.KeptIsTrimmed | FrontEnd/src/components/MaintenanceRecordForm.tsx:153-165 | An optional text is left out exactly when its switch is off or it is blank, and what is sent is trimmed and not blank |
| Forms.CleanSurvives | FrontEnd/src/components/MaintenanceRecordForm.tsx:72-87 | A value that is already trimmed and non-blank comes back unchanged through prefill and submit, and a missing one stays missing |
| RecordForm.OpenedIsTidy | FrontEnd/src/components/MaintenanceRecordForm.tsx:66-106 | Whatever the record holds, the opening effect leaves no text in a hidden group |
| RecordForm.SwitchKeepsTidy | FrontEnd/src/components/MaintenanceRecordForm.tsx:212-263 | Flipping a switch keeps hidden groups empty, and switching a group off removes exactly that group from the payload (the next date becomes `null`) |
| RecordForm.PrefillShows | FrontEnd/src/components/MaintenanceRecordForm.tsx:72-90 | In edit mode a group is shown exactly when the record has a value for it; the cost is shown whenever it is present, zero included |
| RecordForm.PrefillThenSubmit | FrontEnd/src/components/MaintenanceRecordForm.tsx:66-166 | Opening a record and submitting it unchanged sends the record's own values back, with the service type trimmed and a missing next date as `null` |
| RecordForm.PassesIff | FrontEnd/src/components/MaintenanceRecordForm.tsx:108-145 | The form passes exactly when the service type is not blank, the service date has the YYYY-MM-DD shape, a shown non-blank cost parses as a number, and a shown non-blank next date has the shape and is not earlier than the service date |
| RecordForm.FirstFailureInOrder | FrontEnd/src/components/MaintenanceRecordForm.tsx:108-145 | Validation reports the message of the first of its six conditions that holds, in the source's order |
| RecordForm.BlankServiceTypeFirst | FrontEnd/src/components/MaintenanceRecordForm.tsx:109-112 | A blank service type is what gets reported, whatever else is wrong |
| RecordForm.HiddenNextDateIgnored | FrontEnd/src/components/MaintenanceRecordForm.tsx:125-142 | While the next-maintenance group is hidden, its date cannot change the outcome of validation |
| RecordForm.EqualDatesPass | FrontEnd/src/components/MaintenanceRecordForm.tsx:133-141 | A next date equal to the service date is accepted: the order comparison is strict |
| RecordForm.ShapeIsNotCalendar | FrontEnd/src/components/MaintenanceRecordForm.tsx:117-120 | The date check looks at the shape only: "2024-13-01" passes validation although it names no calendar date |
| RecordForm.PayloadRules | FrontEnd/src/components/MaintenanceRecordForm.tsx:150-166 | The service type is sent trimmed and the service date as typed; each optional text is sent trimmed and non-blank or left out when hidden or blank; the cost is left out when hidden or blank; the next date is never left out, it is `null` instead |
| RecordForm.Form.constructor | FrontEnd/src/components/MaintenanceRecordForm.tsx:48-64 | The dialog starts with every field empty, every switch off and no form error |
| RecordForm.Form.SetFields | FrontEnd/src/components/MaintenanceRecordForm.tsx:69-102 | Every input takes the given value and the form error is kept |
| RecordForm.Form.OnOpen | FrontEnd/src/components/MaintenanceRecordForm.tsx:66-106 | While open, the dialog is prefilled from the record in edit mode with a record, otherwise cleared, and the error is cleared; while closed, nothing changes |
| RecordForm.Form.Switch | FrontEnd/src/components/MaintenanceRecordForm.tsx:212-263 | A switch sets its flag, and switching it off empties its group |
| RecordForm.Form.ValidateForm | FrontEnd/src/components/MaintenanceRecordForm.tsx:108-145 | The inputs are unchanged; the form error becomes the first failing check's message, or is cleared; the result says whether none failed |
| RecordForm.Form.HandleSubmit | FrontEnd/src/components/MaintenanceRecordForm.tsx:147-178 | `onSave` is called exactly when validation passes and the mode is create or a record is there: with the payload and the asset id in create mode, with the payload and the record's id in edit mode |
| AssetForm.AssetPayloadRules | FrontEnd/src/components/AssetForm.tsx:42-46 | A non-blank name goes out trimmed and non-empty; the description goes out trimmed and non-blank, and is left out exactly when it is blank |
| AssetForm.EditThenSubmit | FrontEnd/src/components/AssetForm.tsx:23-48 | Opening an asset for edit and submitting it unchanged sends the asset's own name and description back, when they are already trimmed and non-blank |
| AssetForm.Form.constructor | FrontEnd/src/components/AssetForm.tsx:19-21 | The dialog starts with an empty name and description and no form error |
| AssetForm.Form.OnOpen | FrontEnd/src/components/AssetForm.tsx:23-34 | While open, the fields take the asset's name and description (a missing description as empty text) in edit mode with an asset, and are cleared otherwise; the error is cleared; while closed, nothing changes |
| AssetForm.Form.HandleSubmit | FrontEnd/src/components/AssetForm.tsx:36-48 | The inputs are unchanged; a blank name reports 'Asset name is required.' and calls nothing; otherwise the error is cleared and `onSave` receives the trimmed payload |
| AssetDetailPage.EmptyAndZeroRejected | FrontEnd/src/pages/AssetDetailPage.tsx:92-95 | An empty route parameter and "0" both give a falsy asset id |
| AssetDetailPage.FalsyIdNeverFetches | FrontEnd/src/pages/AssetDetailPage.tsx:116-127 | A falsy asset id never leads to a fetch; once the session is known and signed in, the page shows 'Invalid Asset ID.' instead |
| AssetDetailPage.RejectedTokenHandledDifferently | FrontEnd/src/pages/AssetDetailPage.tsx:105-110 | When the server refuses a token with 403 'Token inválido', this page signs the user out while the upcoming-maintenance page keeps the session |
| AssetDetailPage.OpenThenClose | FrontEnd/src/pages/AssetDetailPage.tsx:129-147 | Opening the record dialog and closing it again leaves no record, no dialog error and no open dialog behind |
| AssetDetailPage.SaveOutcome | FrontEnd/src/pages/AssetDetailPage.tsx:149-171 | Without a token or a truthy asset id only the dialog error changes; otherwise saving ends; a failed request keeps the dialog as it was with the failure's message and the records unchanged; a successful one closes the dialog and clears its record and error |
| AssetDetailPage.DeleteOutcome | FrontEnd/src/pages/AssetDetailPage.tsx:184-199 | Without a record to delete nothing changes; with a token, deleting ends; a failure puts its message on the page and keeps the dialog; a success closes the dialog and forgets the record |
| AssetDetailPage.Page.Enter | FrontEnd/src/pages/AssetDetailPage.tsx:116-127 | The mount effect waits while the session loads, fetches for a signed-in session with a truthy id, sends a signed-out session to login, and otherwise refuses the id and stops loading |
| AssetDetailPage.Page.LoadDetails | FrontEnd/src/pages/AssetDetailPage.tsx:94-114 | Behind the guard (signed in, a token, a truthy id) the asset and records are replaced on success and the error recorded on failure, and loading ends; the session is logged out exactly when a failure names a rejected or missing token or a failed profile fetch |
| AssetDetailPage.Page.OpenCreateRecordModal | FrontEnd/src/pages/AssetDetailPage.tsx:129-134 | The dialog opens in create mode with no record and no error |
| AssetDetailPage.Page.OpenEditRecordModal | FrontEnd/src/pages/AssetDetailPage.tsx:136-141 | The dialog opens in edit mode on the given record with no error |
| AssetDetailPage.Page.CloseRecordModal | FrontEnd/src/pages/AssetDetailPage.tsx:143-147 | The dialog closes and forgets its record and error |
| AssetDetailPage.Page.SaveRecord | FrontEnd/src/pages/AssetDetailPage.tsx:149-171 | The page ends in the state `Saved` describes; a create request is sent in create mode, an update request only with a truthy record id, and nothing without a token or a truthy asset id; the session is logged out only through the reload after a request that did not fail |
| AssetDetailPage.Page.SaveSent | FrontEnd/src/pages/AssetDetailPage.tsx:154-170 | Past the guard, the errors are cleared, the request chosen by the mode is sent, and what follows depends only on whether it failed |
| AssetDetailPage.Page.StartSaving | FrontEnd/src/pages/AssetDetailPage.tsx:154-156 | Saving starts and both errors are cleared |
| AssetDetailPage.Page.SaveSettled | FrontEnd/src/pages/AssetDetailPage.tsx:163-170 | A failure's message goes to the dialog; otherwise the page reloads and the dialog closes; saving ends |
| AssetDetailPage.Page.OpenDeleteRecordDialog | FrontEnd/src/pages/AssetDetailPage.tsx:173-177 | The delete dialog opens on the given record and the page error is cleared |
| AssetDetailPage.Page.CloseDeleteRecordDialog | FrontEnd/src/pages/AssetDetailPage.tsx:179-182 | The delete dialog closes and forgets its record |
| AssetDetailPage.Page.ConfirmDeleteRecord | FrontEnd/src/pages/AssetDetailPage.tsx:184-199 | Nothing is requested without a record to delete or a token; otherwise the delete of that record's id is requested, and the page ends in the state `Deleted` describes; the session is logged out only through the reload after a successful delete |
| AssetDetailPage.Page.DeleteSettled | FrontEnd/src/pages/AssetDetailPage.tsx:189-198 | A failure's message goes to the page; otherwise the page reloads and the dialog closes; deleting ends |
| AuthContext.CoherentKept | FrontEnd/src/contexts/AuthContext.tsx:22-99 | Mounting, validation, the start and end of a login or register, and logout all keep the session coherent: a signed-in session has a user and a token, and the token is the stored one |
| AuthContext.CallOutcome | FrontEnd/src/contexts/AuthContext.tsx:51-90 | After a login or register call, loading has ended; the session is signed in exactly when the call succeeded, with the reply's user and token stored; a failure records its message and leaves user, token and stored token as they were |
| AuthContext.ValidationOutcome | FrontEnd/src/contexts/AuthContext.tsx:30-49 | Validation always ends loading; a refused token is forgotten together with its stored copy and the user; an accepted one signs the session in with the profile; without a token nothing else changes |
| AuthContext.LogoutForgets | FrontEnd/src/contexts/AuthContext.tsx:92-99 | Logout leaves no user, no token, no stored token, no error and no signed-in flag, so a second logout changes nothing |
| AuthContext.Provider.constructor | FrontEnd/src/contexts/AuthContext.tsx:23-27 | The provider starts with no user, the token read from storage, signed out, loading, and no error |
| AuthContext.Provider.ValidateToken | FrontEnd/src/contexts/AuthContext.tsx:31-47 | The session becomes the validated state of its previous state and the profile fetch's outcome |
| AuthContext.Provider.Start | FrontEnd/src/contexts/AuthContext.tsx:52-53 | Loading starts and the previous error is cleared |
| AuthContext.Provider.Settle | FrontEnd/src/contexts/AuthContext.tsx:54-68 | A reply signs the user in and stores its token; a failure records its message and clears the signed-in flag; loading ends |
| AuthContext.Provider.Login | FrontEnd/src/contexts/AuthContext.tsx:51-69 | A login is a start followed by the settling of the login call's outcome |
| AuthContext.Provider.Register | FrontEnd/src/contexts/AuthContext.tsx:71-90 | A register is a start followed by the settling of the register call's outcome |
| AuthContext.Provider.Logout | FrontEnd/src/contexts/AuthContext.tsx:92-99 | The session becomes the logged-out state of its previous state |
| DateDisplay.FormatDate | FrontEnd/src/pages/AssetDetailPage.tsx:34-70 | 'N/A' for a missing or empty text; a text that is no date is handed back unchanged; a date is shown in the YYYY-MM-DD form |
| DateDisplay.FormatDateKeepsDates | FrontEnd/src/pages/AssetDetailPage.tsx:38-43 | A calendar date written as YYYY-MM-DD is shown exactly as written |
| DateDisplay.NeverInvalidDate | FrontEnd/src/pages/AssetDetailPage.tsx:42-45 | 'Invalid Date' is never produced by the check for it: only the text 'Invalid Date' itself is shown that way |
| DateDisplay.FormatDateIdempotent | FrontEnd/src/pages/UpcomingMaintenancesPage.tsx:18-52 | Formatting what was shown shows the same text again |
| DateDisplay.ShowsServerDates | FrontEnd/src/pages/UpcomingMaintenancesPage.tsx:18-52 | A date as the server renders it, for years 1000 to 9999, is shown unchanged |
| UpcomingPage.GetDayOfWeek | FrontEnd/src/pages/UpcomingMaintenancesPage.tsx:54-69 | 'N/A' for a missing or empty text; otherwise a weekday name or 'Invalid Date' |
| UpcomingPage.NameOfDay | FrontEnd/src/pages/UpcomingMaintenancesPage.tsx:58-64 | A weekday name or 'Invalid Date', and 'Invalid Date' whenever a part is not a number |
| UpcomingPage.IsoDateParts | FrontEnd/src/pages/UpcomingMaintenancesPage.tsx:58 | A YYYY-MM-DD date splits on '-' into exactly its year, month and day digit groups |
| UpcomingPage.IsoDateNumbers | FrontEnd/src/pages/UpcomingMaintenancesPage.tsx:58 | The three parts of a YYYY-MM-DD date read back with `Number` as its year, month and day |
| UpcomingPage.DayOfWeekOfDate | FrontEnd/src/pages/UpcomingMaintenancesPage.tsx:54-69 | A YYYY-MM-DD date from year 100 to 9999 is named by the weekday of that calendar day |
| UpcomingPage.DayOfWeekOfParts | FrontEnd/src/pages/UpcomingMaintenancesPage.tsx:58-64 | A text whose first three parts read as a day that `Date.UTC` can place is named by that day's weekday |
| UpcomingPage.NameOfValidDay | FrontEnd/src/pages/UpcomingMaintenancesPage.tsx:59-64 | A day `Date.UTC` can place is named by its weekday |
| UpcomingPage.NextDayNextName | FrontEnd/src/pages/UpcomingMaintenancesPage.tsx:54-69 | The day after a date is named by the next weekday, Saturday wrapping round to Sunday |
| UpcomingPage.GarbledNeverMatches | FrontEnd/src/pages/UpcomingMaintenancesPage.tsx:89 | For a message without 'Ã' the garbled 'Token invÃ¡lido' phrase never matches: such a message signs out exactly when it names a missing token or a failed profile fetch |
| UpcomingPage.InvalidTokenKeepsSession | FrontEnd/src/pages/UpcomingMaintenancesPage.tsx:86-91 | The server's 'Token inválido' does not sign the user out on this page, while 'Token de acesso requerido' does |
| UpcomingPage.Page.Load | FrontEnd/src/pages/UpcomingMaintenancesPage.tsx:79-95 | Without a signed-in session and a token nothing changes; otherwise loading ends, a success replaces the list and clears the error, a failure records its message and logs out exactly when its message matches one of the three phrases |
| Header.Words | FrontEnd/src/components/layout/Header.tsx:34 | The number of non-empty parts is at most the number of parts |
| Header.Firsts | FrontEnd/src/components/layout/Header.tsx:34 | One character per non-empty part; when no part is empty, the i-th character is the first character of the i-th part |
| Header.GetInitials | FrontEnd/src/components/layout/Header.tsx:32-35 | '' for a missing or empty name; otherwise one initial per non-empty ' '-separated part |
| Header.EmptyPartIgnored | FrontEnd/src/components/layout/Header.tsx:34 | An empty part, wherever it sits, adds nothing to the initials |
| Header.InitialsOfParts | FrontEnd/src/components/layout/Header.tsx:32-35 | A name made of space-free parts joined by ' ' gets those parts' first characters, uppercased |
| Header.InitialsOfWords | FrontEnd/src/components/layout/Header.tsx:32-35 | A name of non-empty words gets exactly one initial per word: the word's first character, uppercased |
| Header.LeadingSpaceIgnored | FrontEnd/src/components/layout/Header.tsx:32-35 | A leading space does not change the initials |
| Header.Shown | FrontEnd/src/components/layout/Header.tsx:54-99 | The account avatar and menu appear exactly when the session is not loading, signed in and has a user, with that user's initials and email |
| Header.LogoutShowsLogin | FrontEnd/src/components/layout/Header.tsx:21-24 | After logout the bar shows the login button, or the spinner while the session is loading |
| Header.Menu.constructor | FrontEnd/src/components/layout/Header.tsx:11 | The menu starts with no anchor and closed |
| Header.Menu.HandleMenu | FrontEnd/src/components/layout/Header.tsx:13-15 | The clicked element becomes the anchor and the menu is open |
| Header.Menu.HandleClose | FrontEnd/src/components/layout/Header.tsx:17-19 | The anchor is dropped and the menu is closed |
| Header.Menu.HandleLogout | FrontEnd/src/components/layout/Header.tsx:21-24 | The session becomes its logged-out state and the menu is closed |
| Header.Menu.HandleProfile | FrontEnd/src/components/layout/Header.tsx:26-30 | The menu is closed and nothing else happens |
| Dates.ParseIsoDate | BackEnd/src/services/MaintenanceRecordService.ts:21-37 | A text the parser accepts names a valid calendar date with a four-digit year |
| Dates.FormatIsoDate | BackEnd/src/services/MaintenanceRecordService.ts:233-244 | A date is written in the YYYY-MM-DD shape |
| Dates.ParseFormatIso | BackEnd/src/services/MaintenanceRecordService.ts:233-244 | Reading back the YYYY-MM-DD text of a date gives that date |
| Dates.FormatParseIso | BackEnd/src/services/MaintenanceRecordService.ts:21-26 | A ten-character text the parser accepts is written back exactly as it was |
| Dates.ParsedPatternIffFull | BackEnd/src/services/MaintenanceRecordService.ts:21-26 | Among the texts the parser accepts, those of the YYYY-MM-DD shape are exactly those ten characters long |
| Dates.FormatUtcIsIso | BackEnd/src/services/MaintenanceRecordService.ts:240-243 | For years 1000 to 9999 the response's `${year}-${month}-${day}` text is the YYYY-MM-DD text |
| Dates.BeforeIffEarlier | BackEnd/src/services/MaintenanceRecordService.ts:72 | Calendar order of two dates agrees with the order of their day numbers, and equal day numbers mean equal dates |
| Dates.NextDayNumber | FrontEnd/src/pages/UpcomingMaintenancesPage.tsx:59-64 | The next day's number is one more, and its weekday the next one |
| Dates.DateUtcOfDate | FrontEnd/src/pages/UpcomingMaintenancesPage.tsx:59 | `Date.UTC` places a date from year 100 on at its day number |
| Text.TrimIdempotent | BackEnd/src/utils/validators.ts:7 | Trimming twice is trimming once |
| Text.BlankIffAllSpace | FrontEnd/src/components/AssetForm.tsx:37 | A text is blank, its trim empty, exactly when every character is white space |
| Text.IncludesIffContains | FrontEnd/src/pages/UpcomingMaintenancesPage.tsx:89 | `includes` holds exactly when the text occurs at some position |
| Text.Split | FrontEnd/src/components/layout/Header.tsx:34 | At least one part, none holding the separator, and joining the parts with it gives the text back |
| Text.SplitJoin | FrontEnd/src/pages/UpcomingMaintenancesPage.tsx:58 | Splitting parts joined by a separator they do not contain gives the parts back |
| Text.ToUpper | FrontEnd/src/components/layout/Header.tsx:34 | Uppercasing keeps the length and maps each character on its own |
| Text.NumberOfDigits | FrontEnd/src/pages/UpcomingMaintenancesPage.tsx:58 | `Number` reads a run of decimal digits as its value (exact, where JavaScript rounds from 2^53 on) |
| Text.ParseIntOfNat | BackEnd/src/controllers/MaintenanceRecordController.ts:41 | `parseInt` reads the decimal text of a natural number back as that number (exact, where JavaScript rounds from 2^53 on) |
| Text.IntToString | BackEnd/src/controllers/AssetController.ts:36 | The decimal text of an integer, as it appears in Postgres's out-of-range message, holds only digits and a leading minus |
| Text.ParseIntOfInt | BackEnd/src/controllers/AssetController.ts:36 | `parseInt` reads the decimal text of any integer, negative ones included, back as that integer |
| Sequences.SortBy | BackEnd/src/repositories/AssetRepository.ts:32 | The result is ordered by the key and holds exactly the input's elements |
| Sequences.Insert | BackEnd/src/repositories/AssetRepository.ts:32 | Inserting into an ordered sequence keeps it ordered and adds exactly the element |
| Sequences.SortedUnique | BackEnd/src/repositories/MaintenanceRecordRepository.ts:67 | Two orderings of the same elements whose keys are all distinct are equal: with such keys the ORDER BY result is determined |
| Sequences.Filter | BackEnd/src/repositories/AssetRepository.ts:32 | The filtered sequence keeps exactly the elements that satisfy the condition, and no others |
| Sequences.FilterDistinct | BackEnd/src/repositories/AssetRepository.ts:32 | Filtering keeps keys distinct |
| Sequences.PermutationDistinct | BackEnd/src/repositories/MaintenanceRecordRepository.ts:67 | A reordering keeps keys distinct |
| Phrases.ServiceDateRequiredPhrases | BackEnd/src/controllers/MaintenanceRecordController.ts:24-26 | The missing-date error says 'obrigatória', which is not 'obrigatório', and holds none of the phrases the create controller looks for |
| Phrases.NextBeforeServicePhrases | BackEnd/src/controllers/MaintenanceRecordController.ts:114 | The date-order error holds 'não pode ser anterior' and none of the phrases the create controller looks for |
| Phrases.AssetNotOwnedPhrases | BackEnd/src/controllers/AssetController.ts:95-97 | The ownership error holds 'não encontrado' and 'não pertence' and none of the phrases of the 400 branch |
| Phrases.OutOfRangePhrases | BackEnd/src/controllers/AssetController.ts:93-100 | Postgres's out-of-range error for an id holds none of the phrases any controller looks for, so it always falls through to 500 |
| Phrases.AssetsSeqExhaustedPhrases | BackEnd/src/controllers/AssetController.ts:18-25 | The exhausted-asset-sequence error holds none of the phrases any controller looks for, so creating an asset then answers 500 |
| Phrases.RecordsSeqExhaustedPhrases | BackEnd/src/controllers/MaintenanceRecordController.ts:21-29 | The exhausted-record-sequence error holds none of the phrases any controller looks for, so creating a record then answers 500 |
| Phrases.ServiceTypeRequiredPhrases | BackEnd/src/controllers/MaintenanceRecordController.ts:24 | The missing-service-type error holds 'obrigatório' |
| Phrases.DateInvalidPhrases | BackEnd/src/controllers/MaintenanceRecordController.ts:24 | Both unparseable-date errors hold the stem 'inválid' |
| Phrases.RecordNotFoundPhrases | BackEnd/src/controllers/MaintenanceRecordController.ts:114-116 | The missing-record error holds 'não encontrado' and none of the phrases of the 400 branch |
| Phrases.AccessDeniedPhrases | BackEnd/src/controllers/MaintenanceRecordController.ts:114-116 | The foreign-record error holds 'Acesso negado' and 'não pertence' and none of the phrases of the 400 branch |
| Phrases.RecordNotFoundOrDeniedPhrases | BackEnd/src/controllers/MaintenanceRecordController.ts:56 | The error of a record lookup holds 'não encontrado' and 'acesso não permitido' |
| Phrases.ServiceTypeEmptyPhrases | BackEnd/src/controllers/MaintenanceRecordController.ts:114 | The blank-service-type error of an update holds 'vazio' |
| Phrases.AssetNameRequiredPhrases | BackEnd/src/controllers/AssetController.ts:21 | The missing-name error holds 'obrigatório' |
| Phrases.AssetNameEmptyPhrases | BackEnd/src/controllers/AssetController.ts:95-97 | The blank-name error of an update holds 'vazio' and neither phrase of the 404 branch |
| Phrases.TrimOfNullPhrases | BackEnd/src/services/AssetService.ts:65 | The `TypeError` thrown by trimming a `null` name holds none of the phrases any controller looks for |
| Phrases.AssetUserMissingPhrases | BackEnd/src/controllers/AssetController.ts:21 | The foreign-key error of an asset insert for a deleted user holds neither phrase of the 400 branch |
| RecordService.PanelMap | BackEnd/src/services/MaintenanceRecordService.ts:213-223 | One response per panel row, in order: the row's record mapped as any other, with its asset name attached |
| Text.ParseIntNaN | BackEnd/src/controllers/MaintenanceRecordController.ts:41 | `parseInt` is NaN exactly when, after leading white space and an optional sign, no digit follows |
| Tables.DeleteUserFacts | BackEnd/src/database/init.ts:25-28 | Deleting a user keeps exactly the other users, the assets of other users, and the records of those assets, and keeps the schema consistent |

## Left out

- SQL text, the connection pool and transactions: each statement is modelled by its effect on the tables. Two concurrent registrations with one email are not modelled; the unique constraint's error is.
- bcrypt and JWT: hashing, comparing, signing and verifying are parameters of the operations that use them. Token expiry is not modelled.
- Validators.RegisterErrors: does not model the email check (`isEmail`, `normalizeEmail`), because it depends on the validator library's address grammar. Only the name and password checks are modelled.
- Validators.LoginErrors: does not model the email check either, for the same reason. Only `notEmpty` on the password is modelled.
- The `includeTime`/`includeUTC` branches of `formatDate` are not modelled, although `AssetDetailPage` uses them for the creation and update timestamps (AssetDetailPage.tsx lines 243 and 322). Their output depends on the browser's time zone and locale. Only the date-only path, used for service and next dates, is modelled.
- `new Date(text)` is modelled as a strict YYYY-MM-DD calendar parse. The other forms V8 accepts (full timestamps, month names) are not modelled.
- `Number` is modelled for decimal text only. Hexadecimal, exponents and fractions are not.
- String lengths count characters, where JavaScript counts UTF-16 code units.
- Header.GetInitials: takes `n[0]` as the first character rather than the first UTF-16 code unit. `toUpperCase` is modelled for Basic Latin and Latin-1 only (plus the two Latin-1 letters whose capitals lie outside it); every other character, `ß` included, is left as it is.
- Column widths (VARCHAR limits) and NUMERIC(10,2) rounding are not modelled. The cost is kept as the text the client sent.
- `authController`, the route table and the middleware wiring are not part of this model. Neither are `LoginPage`, `HomePage`, `ConfirmDialog` or the API client modules, beyond the outcomes they hand to the modelled components.
- Rendering and `navigate` are not modelled. The pages return what they would navigate to or request, as values.
- `Panel.Upcoming`: when two records of one asset and service type share the latest service date, PostgreSQL's `ROW_NUMBER` picks either. The model picks the first in table order, and the lemmas about the panel hold whichever is picked.
- Store.Database.CreateRecord: requires real calendar dates, where PostgreSQL would refuse an impossible one with an error. The record service's own checks guarantee this before the insert.
- Store.Database.UpdateRecord: requires the same of the patched dates. The service guarantees this in the same way.
- `console.error` logging is not modelled.
- Tables.PatchUser: models an update body holding only `id` (which `update` filters out), name, email and password hash. `update` turns every key of the body except `id` into a column assignment, so a body with `created_at` would overwrite the creation time, and one with `updated_at` or an unknown column would fail with a SQL error; none of these is modelled.
- Tables.PatchAsset: models a body holding only `name` and `description`, each a string or `null`. The controller passes `req.body` through unchecked, so a body with `user_id`, `id` or `created_at` would move the asset to another owner or change its id, and an unknown key or a non-string name would give a 500; none of these is modelled.
- Tables.UpdateAsset: the same restriction on the body as Tables.PatchAsset.
- Tables.PatchAssetsKeepsIds: holds only for such a body; a raw body with an `id` key would change the asset's id.
- AssetService.UpdateAssetSetsSuppliedKeys: the same restriction on the body as Tables.PatchAsset.
- AssetService.UpdateAsset: the same restriction on the body as Tables.PatchAsset; the `name.trim()` TypeError of a non-string name is not modelled.
- Tables.AssetsOfUserExact: `ORDER BY name` is modelled as code-point order, which is PostgreSQL's "C" collation; under a locale collation such as en_US.UTF-8 the database orders case and accents differently.
- AssetService.GetAllAssetsSorted: the same code-point order as Tables.AssetsOfUserExact.
- Ids are modelled as unbounded integers checked against the int4 range where PostgreSQL checks them: a path or body id outside it fails with the out-of-range error. The caller's own id comes from a token the server signed over a stored id, so it is not range-checked.
- The out-of-range message (`Messages.OutOfRange`) gives the exact decimal digits of the id. JavaScript sends ids from 2^53 on rounded, and from 10^21 in exponent form, where PostgreSQL then reports invalid integer syntax instead; the status is 500 either way, since neither message holds a phrase any controller looks for.
- Text.NumberOfDigits: is exact for every run of digits, where JavaScript's `Number` rounds from 2^53 on. Such values lie outside every id and date the model uses.
- Text.ParseIntOfNat: is exact in the same way, where `parseInt` rounds from 2^53 on.
