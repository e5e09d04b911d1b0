# Dog-record service: a verified model

This project models the core of a Micronaut dog-records service: the service
that creates, reads, lists, searches, updates and soft-deletes dog records;
the repository whose SQL states what each query returns and what a soft
delete changes; the MapStruct mapper between entity and DTO; the DTO bean
with its bean-validation constraints; and the `Dog` entity with its setters.

- `Entity.dfy` — the `Dog` entity as a class with one setter per field, its
  value snapshot `DogRow`, the `DogStatus` and `LeavingReason` reference rows,
  and the two read-only reference tables (`map<int, string>`) with their
  find-by-id lookups.
- `DogDTO.dfy` — the `DogDTO` bean as a class with setters, and the
  `@NotBlank` / `@NotNull` constraints as the predicate `IsValid`.
- `DogMapper.dfy` — `toDTO`, `toDTOList`, and the values that `toEntity`,
  `updateEntityFromDTO` and `setRelations` produce, as functions; the three
  mapper operations that build or mutate a `Dog` as methods proved against them.
- `SqlText.dfy` — SQL `LOWER` (ASCII) and `LIKE` with `%` and `_`.
- `DogRepository.dfy` — the dog table as a map from id to row, each query as a
  selection predicate plus a page slice, `softDelete` as `MarkDeleted`, and a
  `DogRepository` class holding the table with `Save`, `Update` and `SoftDelete`.
- `DogService.dfy` — the `DogService` class over the repository and the two
  tables. Its invariant `Valid` says that every stored row holds its
  references as ids alone, with a status id from the status table (and a
  leaving-reason id from the reason table, if any), has a non-null deleted
  flag, and has createdAt ≤ updatedAt < now. Each operation keeps that
  invariant and never clears a deleted flag. Client methods replay the
  service tests' sample request, its create and update tests, and the life
  cycle of one dog.
- `Wrappers.dfy` — `Option`, `Result` and `Outcome`.

Each null-able Java field is an `Option`. The not-found exception is the
`Failure`/`Fail` arm of the result, with `NotFound` saying what was not found.

The status and leaving reason of a `Dog` are `MANY_TO_ONE` relations with no
join fetch. The dog table holds only their ids (`Repository.Stored`), and the
queries' `SELECT d.*` reads back references that carry an id and a null name.
`createDog` and `updateDog` return the DTO of the entity they saved, whose
references are the looked-up rows, names included. `getDogById`, `getAllDogs`
and `searchDogs` return the DTOs of rows as read, with null `statusName` and
`leavingReasonName`. So a dog read back by id shows null names where the DTO
that created or updated it showed them; the model follows the code and
records the difference under "## Findings".

## Model

| member | source | states |
|---|---|---|
| `Entity.FindStatusById` | src/main/java/com/task/dogs/repository/DogStatusRepository.java:8-10 | the lookup finds a status exactly when the id is a key of the status table, and the status found carries that id and the (non-null) name stored under it |
| `Entity.FindLeavingReasonById` | src/main/java/com/task/dogs/repository/LeavingReasonRepository.java:8-10 | the lookup finds a leaving reason exactly when the id is a key of the reason table, and the reason found carries that id and the (non-null) name stored under it |
| `Entity.Dog.constructor` | src/main/java/com/task/dogs/domain/entity/Dog.java:33-41 | a new entity has `deleted = false` and every other field null (no id, no status, no leaving reason, no timestamps) |
| `Entity.Dog.FromRow` | src/main/java/com/task/dogs/repository/DogRepository.java:29-33 | an entity read back from a row holds exactly that row's columns |
| `Entity.Dog.SetId` | src/main/java/com/task/dogs/domain/entity/Dog.java:47-49 | only `id` changes, to the value given; the getter then returns it |
| `Entity.Dog.SetName` | src/main/java/com/task/dogs/domain/entity/Dog.java:55-57 | only `name` changes, to the value given; the getter then returns it |
| `Entity.Dog.SetBreed` | src/main/java/com/task/dogs/domain/entity/Dog.java:63-65 | only `breed` changes, to the value given; the getter then returns it |
| `Entity.Dog.SetSupplier` | src/main/java/com/task/dogs/domain/entity/Dog.java:71-73 | only `supplier` changes, to the value given; the getter then returns it |
| `Entity.Dog.SetBadgeId` | src/main/java/com/task/dogs/domain/entity/Dog.java:79-81 | only `badgeId` changes, to the value given; the getter then returns it |
| `Entity.Dog.SetGender` | src/main/java/com/task/dogs/domain/entity/Dog.java:87-89 | only `gender` changes, to the value given; the getter then returns it |
| `Entity.Dog.SetBirthDate` | src/main/java/com/task/dogs/domain/entity/Dog.java:95-97 | only `birthDate` changes, to the value given; the getter then returns it |
| `Entity.Dog.SetDateAcquired` | src/main/java/com/task/dogs/domain/entity/Dog.java:103-105 | only `dateAcquired` changes, to the value given; the getter then returns it |
| `Entity.Dog.SetStatus` | src/main/java/com/task/dogs/domain/entity/Dog.java:111-113 | only `status` changes, to the value given; the getter then returns it |
| `Entity.Dog.SetLeavingDate` | src/main/java/com/task/dogs/domain/entity/Dog.java:119-121 | only `leavingDate` changes, to the value given; the getter then returns it |
| `Entity.Dog.SetLeavingReason` | src/main/java/com/task/dogs/domain/entity/Dog.java:127-129 | only `leavingReason` changes, to the value given; the getter then returns it |
| `Entity.Dog.SetKennellingCharacteristic` | src/main/java/com/task/dogs/domain/entity/Dog.java:135-137 | only `kennellingCharacteristic` changes, to the value given; the getter then returns it |
| `Entity.Dog.SetDeleted` | src/main/java/com/task/dogs/domain/entity/Dog.java:143-145 | only `deleted` changes, to the value given; the getter then returns it |
| `Entity.Dog.SetCreatedAt` | src/main/java/com/task/dogs/domain/entity/Dog.java:151-153 | only `createdAt` changes, to the value given; the getter then returns it |
| `Entity.Dog.SetUpdatedAt` | src/main/java/com/task/dogs/domain/entity/Dog.java:159-161 | only `updatedAt` changes, to the value given; the getter then returns it |
| `Dto.Trim` | src/main/java/com/task/dogs/domain/dto/DogDTO.java:15-27 | `String.trim` removes everything exactly when every character is at most U+0020 |
| `Dto.NotBlank` | src/main/java/com/task/dogs/domain/dto/DogDTO.java:15-27 | `@NotBlank` holds exactly when the string is non-null and has a character above U+0020 |
| `Dto.IsValid` | src/main/java/com/task/dogs/domain/dto/DogDTO.java:15-38 | a valid DTO has non-null name, breed, supplier and gender; a null birthDate, dateAcquired or statusId makes it invalid |
| `Dto.BlankRequiredFieldInvalid` | src/test/java/com/task/dogs/controller/DogControllerTest.java:43-55 | an empty or whitespace-only name, breed, supplier or gender makes the DTO invalid |
| `Dto.UnconstrainedFieldsFree` | src/main/java/com/task/dogs/domain/dto/DogDTO.java:13-49 | id, badgeId, statusName, leavingDate, leavingReasonId, leavingReasonName and kennellingCharacteristic never affect validity, null included |
| `Dto.NewDtoIsInvalid` | src/main/java/com/task/dogs/domain/dto/DogDTO.java:51-52 | a DTO with every field null violates its constraints |
| `Dto.DogDTO.constructor` | src/main/java/com/task/dogs/domain/dto/DogDTO.java:51-52 | a new DTO has every field null and is therefore invalid |
| `Dto.DogDTO.SetId` | src/main/java/com/task/dogs/domain/dto/DogDTO.java:58-60 | only `id` changes, to the value given; the getter then returns it |
| `Dto.DogDTO.SetName` | src/main/java/com/task/dogs/domain/dto/DogDTO.java:66-68 | only `name` changes, to the value given; the getter then returns it |
| `Dto.DogDTO.SetBreed` | src/main/java/com/task/dogs/domain/dto/DogDTO.java:74-76 | only `breed` changes, to the value given; the getter then returns it |
| `Dto.DogDTO.SetSupplier` | src/main/java/com/task/dogs/domain/dto/DogDTO.java:82-84 | only `supplier` changes, to the value given; the getter then returns it |
| `Dto.DogDTO.SetBadgeId` | src/main/java/com/task/dogs/domain/dto/DogDTO.java:90-92 | only `badgeId` changes, to the value given; the getter then returns it |
| `Dto.DogDTO.SetGender` | src/main/java/com/task/dogs/domain/dto/DogDTO.java:98-100 | only `gender` changes, to the value given; the getter then returns it |
| `Dto.DogDTO.SetBirthDate` | src/main/java/com/task/dogs/domain/dto/DogDTO.java:106-108 | only `birthDate` changes, to the value given; the getter then returns it |
| `Dto.DogDTO.SetDateAcquired` | src/main/java/com/task/dogs/domain/dto/DogDTO.java:114-116 | only `dateAcquired` changes, to the value given; the getter then returns it |
| `Dto.DogDTO.SetStatusId` | src/main/java/com/task/dogs/domain/dto/DogDTO.java:122-124 | only `statusId` changes, to the value given; the getter then returns it |
| `Dto.DogDTO.SetStatusName` | src/main/java/com/task/dogs/domain/dto/DogDTO.java:130-132 | only `statusName` changes, to the value given; the getter then returns it |
| `Dto.DogDTO.SetLeavingDate` | src/main/java/com/task/dogs/domain/dto/DogDTO.java:138-140 | only `leavingDate` changes, to the value given; the getter then returns it |
| `Dto.DogDTO.SetLeavingReasonId` | src/main/java/com/task/dogs/domain/dto/DogDTO.java:146-148 | only `leavingReasonId` changes, to the value given; the getter then returns it |
| `Dto.DogDTO.SetLeavingReasonName` | src/main/java/com/task/dogs/domain/dto/DogDTO.java:154-156 | only `leavingReasonName` changes, to the value given; the getter then returns it |
| `Dto.DogDTO.SetKennellingCharacteristic` | src/main/java/com/task/dogs/domain/dto/DogDTO.java:162-164 | only `kennellingCharacteristic` changes, to the value given; the getter then returns it |
| `SqlText.Lower` | src/main/java/com/task/dogs/repository/DogRepository.java:39-41 | `LOWER` keeps the length and folds each ASCII capital to its small letter, leaving every other character alone |
| `SqlText.Like` | src/main/java/com/task/dogs/repository/DogRepository.java:39-41 | a pattern without `%` or `_` matches a text exactly when the two are equal |
| `SqlText.LowerConcat` | src/main/java/com/task/dogs/repository/DogRepository.java:39-41 | lower-casing a concatenation lower-cases each part |
| `SqlText.LowerKeepsLiteral` | src/main/java/com/task/dogs/repository/DogRepository.java:39-41 | lower-casing never introduces a `%` or `_` wildcard |
| `SqlText.PercentMatchesAll` | src/main/java/com/task/dogs/repository/DogRepository.java:39-41 | the pattern `%` matches every text |
| `SqlText.LiteralPrefixLike` | src/main/java/com/task/dogs/repository/DogRepository.java:39-41 | `s LIKE t%` with a wildcard-free `t` holds exactly when `t` is a prefix of `s` |
| `SqlText.LeadingPercentLike` | src/main/java/com/task/dogs/repository/DogRepository.java:39-41 | `s LIKE %q` holds exactly when some suffix of `s` matches `q` |
| `SqlText.SurroundedLiteralIsSubstring` | src/main/java/com/task/dogs/repository/DogRepository.java:39-41 | `s LIKE %t%` with a wildcard-free `t` holds exactly when `t` is a substring of `s` |
| `Mapper.RowDeterminedByParts` | src/main/java/com/task/dogs/domain/mapper/DogMapper.java:23-37 | an entity is determined by its descriptive fields together with the six fields the conversions ignore |
| `Mapper.Overwrite` | src/main/java/com/task/dogs/domain/mapper/DogMapper.java:31-37 | the result carries the given descriptive fields and the target's id, references, deleted flag and timestamps |
| `Mapper.ToDTO` | src/main/java/com/task/dogs/domain/mapper/DogMapper.java:15-19 | copies id and every descriptive field; statusId/statusName are the status's id and name, leavingReasonId/leavingReasonName the leaving reason's, each pair null when its reference is null |
| `Mapper.ToDTOList` | src/main/java/com/task/dogs/domain/mapper/DogMapper.java:21 | same length and order, element i being the DTO of entity i |
| `Mapper.EntityOf` | src/main/java/com/task/dogs/domain/mapper/DogMapper.java:23-29 | the descriptive fields are the DTO's; id, references, deleted and timestamps keep the new-entity defaults (no id, not deleted) |
| `Mapper.UpdatedFrom` | src/main/java/com/task/dogs/domain/mapper/DogMapper.java:31-37 | every descriptive field replaced from the DTO, nulls included; id, references, deleted flag and timestamps kept |
| `Mapper.WithRelations` | src/main/java/com/task/dogs/domain/mapper/DogMapper.java:39-43 | only status and leavingReason change, to the values given |
| `Mapper.EntityIgnoresDtoIdentity` | src/main/java/com/task/dogs/domain/mapper/DogMapper.java:23-29 | DTOs that agree on their descriptive fields give the same entity, whatever their id, status and leaving-reason fields |
| `Mapper.DescriptiveRoundTrip` | src/main/java/com/task/dogs/domain/mapper/DogMapper.java:19-29 | converting a DTO to an entity and back keeps every descriptive field and yields no id |
| `Mapper.UpdateIsFullReplace` | src/main/java/com/task/dogs/domain/mapper/DogMapper.java:31-37 | the update result does not depend on the target's old descriptive fields, and applying the same DTO twice equals applying it once |
| `Mapper.ToEntity` | src/main/java/com/task/dogs/domain/mapper/DogMapper.java:23-29 | returns a fresh entity holding exactly the value described by `EntityOf` |
| `Mapper.UpdateEntityFromDTO` | src/main/java/com/task/dogs/domain/mapper/DogMapper.java:31-37 | the target afterwards holds exactly `UpdatedFrom` of the DTO and its old state |
| `Mapper.SetRelations` | src/main/java/com/task/dogs/domain/mapper/DogMapper.java:39-43 | returns the same entity, whose status and leaving reason are now the given ones and nothing else changed |
| `Repository.PageLength` | src/main/java/com/task/dogs/repository/DogRepository.java:23-27 | a page holds at most `size` rows and at most the total; all `size` while rows remain past its end, none when it starts past the last row |
| `Repository.PageOf` | src/main/java/com/task/dogs/repository/DogRepository.java:23-27 | a page keeps its request and the total count, holds exactly `PageLength` rows, holds the rows from offset `number * size` in order, and holds only selected rows |
| `Repository.PageKeepsIdsDistinct` | src/main/java/com/task/dogs/repository/DogRepository.java:23-27 | a page cut from rows with distinct ids holds rows with distinct ids |
| `Repository.EveryRowOnSomePage` | src/main/java/com/task/dogs/repository/DogRepository.java:23-27 | with a positive size, selected row j is entry `j % size` of page `j / size` |
| `Repository.Selection` | src/main/java/com/task/dogs/repository/DogRepository.java:17-21 | each selected id contributes its row once, and nothing else appears; over a table keyed by id no two results share an id |
| `Repository.Stored` | src/main/java/com/task/dogs/domain/entity/Dog.java:24-30 | the row keeps every column of the entity, with each reference reduced to its id and a null name, and present exactly when the entity's is |
| `Repository.JoinsStatus` | src/main/java/com/task/dogs/repository/DogRepository.java:17-18 | the inner join with `dog_status` keeps a row exactly when it has a status whose lookup by id finds a row |
| `Repository.Visible` | src/main/java/com/task/dogs/repository/DogRepository.java:17-20 | a row with a null or true deleted flag, or with no status, is not visible; a visible row has `deleted = false` and joins its status |
| `Repository.FieldMatches` | src/main/java/com/task/dogs/repository/DogRepository.java:39-41 | a null filter passes every field; a supplied filter rejects a null field |
| `Repository.MatchesFilters` | src/main/java/com/task/dogs/repository/DogRepository.java:39-41 | with all three filters null every row passes; a row passing a supplied filter has that field non-null |
| `Repository.VisibleIds` | src/main/java/com/task/dogs/repository/DogRepository.java:17-20 | an id is selected exactly when its row is not deleted and its status joins the status table |
| `Repository.FilteredIds` | src/main/java/com/task/dogs/repository/DogRepository.java:35-41 | an id is selected exactly when its row is visible and passes every supplied filter |
| `Repository.FindAllNonDeleted` | src/main/java/com/task/dogs/repository/DogRepository.java:17-21 | the result holds each not-deleted, status-joined row once and no other row |
| `Repository.FindAllNonDeletedPage` | src/main/java/com/task/dogs/repository/DogRepository.java:23-27 | the page holds only not-deleted, status-joined rows, `PageLength` of them, no two with the same id; its total counts all such rows |
| `Repository.FindByIdNonDeleted` | src/main/java/com/task/dogs/repository/DogRepository.java:29-33 | a row comes back exactly when that id is stored, the row is not deleted and its status joins; the row is the one stored under the id |
| `Repository.FilteredRows` | src/main/java/com/task/dogs/repository/DogRepository.java:35-41 | the result holds each visible row passing every supplied filter once and no other row |
| `Repository.FindByFilters` | src/main/java/com/task/dogs/repository/DogRepository.java:35-42 | a page of the filtered rows: `PageLength` rows, each one visible and passing every supplied filter, no two with the same id; the total counts all filtered rows |
| `Repository.MarkDeleted` | src/main/java/com/task/dogs/repository/DogRepository.java:44-45 | the row with that id gets `deleted = true` and a new updatedAt; every other row and the set of ids are unchanged |
| `Repository.AllNullFiltersSelectNonDeleted` | src/main/java/com/task/dogs/repository/DogRepository.java:23-27 | with all three filters null the search selects the same rows, and the same page, as the listing |
| `Repository.SearchSelectsExactly` | src/main/java/com/task/dogs/repository/DogRepository.java:35-41 | a stored row is in the search result exactly when it is visible and passes every supplied filter |
| `Repository.RejectedByOneFilterExcluded` | src/main/java/com/task/dogs/repository/DogRepository.java:39-41 | a row failing any one supplied filter is on no page of the search, whatever the other filters say |
| `Repository.EmptyFilterMatchesAnyValue` | src/main/java/com/task/dogs/repository/DogRepository.java:39-41 | an empty filter (`'%%'`) accepts every non-null field and no null one |
| `Repository.FilterIsSubstring` | src/main/java/com/task/dogs/repository/DogRepository.java:39-41 | for a filter without `%` or `_`, a field passes exactly when it is non-null and the lower-cased filter is a substring of the lower-cased field |
| `Repository.NameSearchExample` | src/test/java/com/task/dogs/service/DogServiceTest.java:133-150 | the name filter "Buddy" accepts "Buddy" and rejects "Charlie" |
| `Repository.SupplierSearchExample` | src/test/java/com/task/dogs/service/DogServiceTest.java:171-184 | the supplier filter "ABC" accepts "ABC Kennels", and so does "abc" (case-insensitive) |
| `Repository.UnderscoreSearchExample` | src/main/java/com/task/dogs/repository/DogRepository.java:39-41 | a user-typed `_` acts as a wildcard: "R_x" accepts "Rex" though it is not a substring of it |
| `Repository.HiddenRowUnreachable` | src/main/java/com/task/dogs/repository/DogRepository.java:17-42 | a deleted row is returned neither by id nor on any page of the listing or of any search |
| `Repository.MarkDeletedHidesOnlyThatRow` | src/main/java/com/task/dogs/repository/DogRepository.java:44-45 | after the soft delete the listing selects the ids it selected before minus that id |
| `Repository.DogRepository.constructor` | src/main/java/com/task/dogs/repository/DogRepository.java:14-15 | a new store is empty and keeps the status table it joins against |
| `Repository.DogRepository.Save` | src/main/java/com/task/dogs/service/DogService.java:52 | stamps the entity's id, createdAt and updatedAt (fresh id, current time) and returns the same entity; inserts its stored form under that id and changes no other row |
| `Repository.DogRepository.Update` | src/main/java/com/task/dogs/service/DogService.java:91 | stamps updatedAt on the entity and returns it; writes its stored form over the row with its id; other rows unchanged, no id generated |
| `Repository.DogRepository.SoftDelete` | src/main/java/com/task/dogs/repository/DogRepository.java:44-45 | the rows become `MarkDeleted` of the old rows at the current time, and the clock advances |
| `Service.MapToDTO` | src/main/java/com/task/dogs/service/DogService.java:58 | the page keeps its request and total; element i is the DTO of row i; rows with distinct ids give DTOs with distinct ids |
| `Service.ActiveIds` | src/main/java/com/task/dogs/service/DogService.java:56-59 | an id is listed exactly when it is stored and its row is not deleted |
| `Service.VisibleIffNotDeleted` | src/main/java/com/task/dogs/service/DogService.java:39-49 | under the service invariant, the status join never drops a row: a row is visible exactly when it is not deleted |
| `Service.VisibleIdsAreActive` | src/main/java/com/task/dogs/service/DogService.java:56-59 | under the service invariant, the listing selects exactly the non-deleted rows |
| `Service.Resolved` | src/main/java/com/task/dogs/service/DogService.java:39-53 | the row with each reference's name looked up again by its id: same stored form, names taken from the tables |
| `Service.ResolvedUndoesStored` | src/main/java/com/task/dogs/service/DogService.java:48-53 | an entity whose references are lookup results is recovered exactly from its stored row by looking the names up again |
| `Service.ReadLosesNames` | src/main/java/com/task/dogs/service/DogService.java:66-70 | under the service invariant, the DTO of a stored row as read has null status and leaving-reason names, while the DTO of the same row with names resolved shows the status's name; the two differ |
| `Service.MappedPageShowsActiveRows` | src/main/java/com/task/dogs/service/DogService.java:56-64 | every DTO on a mapped page of visible rows is the DTO of a non-deleted stored row, with null status and leaving-reason names |
| `Service.DogService.constructor` | src/main/java/com/task/dogs/service/DogService.java:25-33 | the service keeps the injected store and tables, and the invariant holds |
| `Service.DogService.CreateDog` | src/main/java/com/task/dogs/service/DogService.java:35-54 | fails with status-not-found or leaving-reason-not-found exactly when the corresponding lookup fails, leaving the store unchanged; otherwise adds exactly one row under a fresh id, not deleted, with the DTO's descriptive fields, the stored form of the resolved status and leaving reason (or none), createdAt = updatedAt = now, and returns the DTO of the saved entity, which shows the status's name and the leaving reason's; keeps the invariant and every earlier deletion |
| `Service.DogService.GetAllDogs` | src/main/java/com/task/dogs/service/DogService.java:56-59 | returns the mapped page of the listing query: `PageLength` DTOs (at most `size`), each the DTO of a non-deleted row, no two with the same id, names null; the total is the number of non-deleted rows |
| `Service.DogService.SearchDogs` | src/main/java/com/task/dogs/service/DogService.java:61-64 | returns the mapped page of the search query: `PageLength` DTOs (at most `size`), each the DTO of a non-deleted row, no two with the same id, names null; the total is the number of filtered rows |
| `Service.DogService.GetDogById` | src/main/java/com/task/dogs/service/DogService.java:66-70 | succeeds exactly when a non-deleted row has that id, returning the DTO of the row as read: its id, a status id from the status table, a leaving-reason id from the reason table if any, and null status and leaving-reason names; otherwise fails with dog-not-found |
| `Service.DogService.GetDogByIdWithNames` | src/main/java/com/task/dogs/service/DogService.java:66-70 | the same success and not-found cases as `GetDogById`, returning the DTO with the status's name and the leaving reason's looked up by id |
| `Service.DogService.UpdateDog` | src/main/java/com/task/dogs/service/DogService.java:72-93 | fails with dog-, status- or leaving-reason-not-found (in that order of checking) leaving the store unchanged; succeeds exactly when all three lookups succeed, then only that row changes: descriptive fields replaced from the DTO, stored form of the resolved status and leaving reason (or none), id, deleted flag and createdAt kept, updatedAt = now; returns the DTO of the updated entity, with the requested status id and the status's and leaving reason's names |
| `Service.DogService.DeleteDog` | src/main/java/com/task/dogs/service/DogService.java:95-100 | fails with dog-not-found, store unchanged, exactly when no non-deleted row has that id; otherwise the store becomes the soft-deleted one, after which the id is not found and the listing has lost exactly that id |
| `Service.TestDogDTO` | src/test/java/com/task/dogs/service/DogServiceTest.java:199-211 | the sample request is "Rex", German Shepherd, K9 Kennels, badge K9-001, Male, born 2020-05-15, acquired 2021-01-10, status 1, Friendly, all other fields null, and it is valid |
| `Service.CreateRex` | src/test/java/com/task/dogs/service/DogServiceTest.java:22-33 | creating the sample dog with status 1 present adds exactly one non-deleted row named "Rex" and returns its id, name "Rex", breed "German Shepherd", supplier "K9 Kennels", gender "Male", status id 1 and the status's name |
| `Service.CreateRexUpdateToMax` | src/test/java/com/task/dogs/service/DogServiceTest.java:86-102 | creating the sample dog and updating it from a request renamed "Max", bred "Labrador Retriever" with status 2 leaves one new non-deleted row; the update returns name "Max", breed "Labrador Retriever", status id 2 and status 2's name |
| `Service.RexLifeCycle` | src/test/java/com/task/dogs/service/DogServiceTest.java:114-130 | after create, update, read and delete, reading and deleting again report not-found; the one new row is deleted, keeps the new name, and no earlier row changed |

## Left out

- Controllers, the status and leaving-reason services, and their repositories beyond find-by-id: HTTP routing, status codes and list-all wrappers. Calling search when a filter is present and list otherwise selects the same rows as search with null filters (`Repository.AllNullFiltersSelectNonDeleted`).
- JDBC/H2 execution, `@Transactional`, concurrency and JSON (de)serialisation: each service operation is one atomic step on the store.
- Real time: `LocalDateTime` timestamps are a logical clock (`Timestamp`) that each write advances, and `LocalDate` values are opaque.
- The escape character of H2's `LIKE` (backslash) is not modelled; `%` and `_` are. Case folding is ASCII only, not Unicode. A `%` or `_` typed into a filter is not escaped by the query, so it acts as a wildcard (`Repository.UnderscoreSearchExample`); only a filter free of both is a plain substring search (`Repository.FilterIsSubstring`).
- The service starts from a store that already satisfies its invariant, for example the empty dog table: every row's status id in the status table, a leaving-reason id (if any) in the reason table, non-null deleted flag and timestamps, createdAt ≤ updatedAt < clock (`Service.DogService.constructor`). How the initial data got into the table is not modelled.
- Row order within a page: the queries have no `ORDER BY`, so the database may list rows in any order. The model lists rows by ascending id so that a page is a definite sequence. The `page ==` clauses of `Service.DogService.GetAllDogs` and `Service.DogService.SearchDogs`, and `Repository.EveryRowOnSomePage`, rest on that choice. The other clauses do not: which rows a page may hold, how many it holds, and that no row appears twice.
- `Pageable` is a page number and a positive-or-zero size. Unpaged requests, sorting and the framework's size limits are not modelled.
- Ids are unbounded integers: overflow of the 64-bit id sequence is not modelled.
- `Service.DogService.CreateDog`: requires a non-null `statusId`, which `@Valid` guarantees at the controller. A null id passed to `findById` is a framework argument error, not a not-found, and is not modelled.
- `Service.DogService.UpdateDog`: requires a non-null `statusId`, for the same reason as `CreateDog`.
- Relation loading: the dog table holds the status and leaving-reason ids, and `SELECT d.*` reads them back as references with an id and a null name (`Repository.Stored`). The reference tables' other columns, and any change to them, are not modelled: they are read-only maps.
- `Entity.Dog.FromRow` stands for the data layer turning a row into an entity; the data layer itself is not part of this model.
- `Repository.DogRepository.Update`: on an id that is not stored, the framework's behaviour is left open; the model changes no row, and the service never reaches that case.
- `softDelete` has no `deleted = false` condition in its SQL, so it would re-stamp an already-deleted row; the service never calls it for one.
- Getters are plain field reads of the two classes; their values are the `Row()` and `Fields()` snapshots.
- The service returns fresh DTOs that nothing mutates afterwards; they are modelled as `DtoFields` values rather than `DogDTO` objects.
- `NotBlank` follows `String.trim`: a character counts as blank when it is at most U+0020. Wider Unicode whitespace is not considered.

## Findings

| source | as written | input that shows it | evidently intended | confidence | as-written member | corrected member |
|---|---|---|---|---|---|---|
| src/main/java/com/task/dogs/service/DogService.java:66-70 | `getDogById` maps the entity that `findByIdNonDeleted`'s `SELECT d.*` loads. The status and leaving reason are `MANY_TO_ONE` relations with no join fetch, so only their ids are loaded, and `toDTO` gives null `statusName` and `leavingReasonName`. The listing and the search behave the same way. | create a dog with status 1, then get it by its id: the DTO returned by create shows status 1's name, but the DTO returned by get has a null status name | get-by-id returns the status's and leaving reason's names, as create and update do for the same row | medium: the loading behaviour comes from the framework's documented defaults; not executed | `Service.DogService.GetDogById`, with `Service.ReadLosesNames` | `Service.DogService.GetDogByIdWithNames`, with `Service.ResolvedUndoesStored` |
