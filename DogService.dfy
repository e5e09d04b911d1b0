/**
 * The dog-record service: create, read, list, search, update and soft-delete
 * over the dog table, resolving status and leaving-reason ids against the
 * two read-only reference tables. Each public operation is one atomic step
 * on the store.
 */
module Service {
  import opened Wrappers
  import opened Entity
  import opened Dto
  import opened Mapper
  import opened Repository

  /** `ResourceNotFoundException`, with what was looked up and the id used. */
  datatype NotFound = DogNotFound(id: int) | StatusNotFound(id: int) | LeavingReasonNotFound(id: int)

  /** The leaving reason a request asks for: none when its id is null, else the looked-up row. */
  function RequestedReason(reasons: ReasonTable, leavingReasonId: Option<int>): Option<LeavingReason>
    requires leavingReasonId.Some? ==> leavingReasonId.value in reasons
  {
    if leavingReasonId.Some? then FindLeavingReasonById(reasons, leavingReasonId.value) else None
  }

  /**
   * What the service keeps true of every stored row: it holds its references
   * as ids alone, its status id names a row of the status table and its
   * leaving-reason id, if any, a row of the reason table, its deleted flag is
   * non-null, and it was created no later than last updated, before the
   * clock's current reading.
   */
  predicate RowConsistent(row: DogRow, statuses: StatusTable, reasons: ReasonTable, clock: Timestamp)
  {
    && row.status.Some? && row.status.value.statusName.None?
    && row.status.value.id in statuses
    && (row.leavingReason.Some? ==>
          row.leavingReason.value.reasonName.None? && row.leavingReason.value.id in reasons)
    && row.deleted.Some?
    && row.createdAt.Some? && row.updatedAt.Some?
    && row.createdAt.value <= row.updatedAt.value < clock
  }

  ghost predicate StoreConsistent(rows: map<int, DogRow>, statuses: StatusTable,
                                  reasons: ReasonTable, clock: Timestamp)
  {
    forall k :: k in rows ==> RowConsistent(rows[k], statuses, reasons, clock)
  }

  /** Soft deletion is one-way and rows are never removed. */
  ghost predicate DeletionsKept(before: map<int, DogRow>, after: map<int, DogRow>)
  {
    && before.Keys <= after.Keys
    && forall k :: k in before && before[k].deleted == Some(true) ==> after[k].deleted == Some(true)
  }

  /** `dogs.map(dogMapper::toDTO)`. */
  function MapToDTO(page: Page<DogRow>): (r: Page<DtoFields>)
    ensures r.pageable == page.pageable && r.totalSize == page.totalSize
    ensures |r.content| == |page.content|
    ensures forall i :: 0 <= i < |page.content| ==> r.content[i] == ToDTO(page.content[i])
    ensures DistinctIds(page.content) ==>
              forall i, j :: 0 <= i < j < |r.content| ==> r.content[i].id != r.content[j].id
  {
    Page(ToDTOList(page.content), page.pageable, page.totalSize)
  }

  /** `x` is the DTO of some non-deleted stored row. */
  ghost predicate ShowsActiveRow(rows: map<int, DogRow>, x: DtoFields)
  {
    exists k :: k in rows && rows[k].deleted == Some(false) && x == ToDTO(rows[k])
  }

  /** Under the service's invariant, a row is visible to the queries exactly when it is not deleted. */
  lemma {:induction false} VisibleIffNotDeleted(rows: map<int, DogRow>, statuses: StatusTable,
                                                reasons: ReasonTable, clock: Timestamp, k: int)
    requires StoreConsistent(rows, statuses, reasons, clock) && k in rows
    ensures Visible(rows[k], statuses) <==> rows[k].deleted == Some(false)
  {
    assert RowConsistent(rows[k], statuses, reasons, clock);
  }

  /** The ids of the stored rows whose deleted flag is false. */
  function ActiveIds(rows: map<int, DogRow>): (ids: set<int>)
    ensures forall k :: k in ids <==> k in rows && rows[k].deleted == Some(false)
  {
    set k | k in rows && rows[k].deleted == Some(false)
  }

  /** Under the service's invariant, the listing query selects exactly the non-deleted rows. */
  lemma {:induction false} VisibleIdsAreActive(rows: map<int, DogRow>, statuses: StatusTable,
                                               reasons: ReasonTable, clock: Timestamp)
    requires StoreConsistent(rows, statuses, reasons, clock)
    ensures VisibleIds(rows, statuses) == ActiveIds(rows)
  {
    forall k | k in rows
      ensures k in VisibleIds(rows, statuses) <==> k in ActiveIds(rows)
    {
      VisibleIffNotDeleted(rows, statuses, reasons, clock, k);
    }
  }

  /**
   * The entity a stored row was saved from: the row with its references'
   * names looked up again by id, as `save` and `update` handed it back.
   */
  function Resolved(row: DogRow, statuses: StatusTable, reasons: ReasonTable): (r: DogRow)
    requires row.status.Some? ==> row.status.value.id in statuses
    requires row.leavingReason.Some? ==> row.leavingReason.value.id in reasons
    ensures Stored(r) == Stored(row)
    ensures row.status.Some? ==>
              r.status.Some? && r.status.value.statusName == Some(statuses[row.status.value.id])
    ensures row.leavingReason.Some? ==>
              r.leavingReason.Some? && r.leavingReason.value.reasonName == Some(reasons[row.leavingReason.value.id])
  {
    row.(status := if row.status.Some? then FindStatusById(statuses, row.status.value.id) else None,
         leavingReason := if row.leavingReason.Some?
                          then FindLeavingReasonById(reasons, row.leavingReason.value.id) else None)
  }

  /**
   * Looking the names up again gives back exactly the entity that was
   * saved, whenever its references were the lookups' own results, as
   * `createDog` and `updateDog` set them.
   */
  lemma ResolvedUndoesStored(dog: DogRow, statuses: StatusTable, reasons: ReasonTable)
    requires dog.status.Some? ==> dog.status == FindStatusById(statuses, dog.status.value.id)
    requires dog.leavingReason.Some? ==>
               dog.leavingReason == FindLeavingReasonById(reasons, dog.leavingReason.value.id)
    ensures Resolved(Stored(dog), statuses, reasons) == dog
  {
  }

  /**
   * A read of a stored row shows neither the status's name nor the leaving
   * reason's, though the entity that was saved showed both: the DTO of the
   * row as read differs from the DTO of the row with its names resolved.
   */
  lemma {:induction false} ReadLosesNames(rows: map<int, DogRow>, statuses: StatusTable,
                                          reasons: ReasonTable, clock: Timestamp, k: int)
    requires StoreConsistent(rows, statuses, reasons, clock) && k in rows
    ensures rows[k].status.Some? && rows[k].status.value.id in statuses
    ensures ToDTO(rows[k]).statusName.None? && ToDTO(rows[k]).leavingReasonName.None?
    ensures ToDTO(Resolved(rows[k], statuses, reasons)).statusName
            == Some(statuses[rows[k].status.value.id])
    ensures ToDTO(rows[k]) != ToDTO(Resolved(rows[k], statuses, reasons))
  {
    assert RowConsistent(rows[k], statuses, reasons, clock);
  }

  /** Each element of a mapped page of visible rows is the DTO of a non-deleted row. */
  lemma {:induction false} MappedPageShowsActiveRows(rows: map<int, DogRow>, statuses: StatusTable,
                                                     reasons: ReasonTable, clock: Timestamp,
                                                     ids: set<int>, page: Page<DogRow>)
    requires StoreConsistent(rows, statuses, reasons, clock)
    requires ids <= VisibleIds(rows, statuses)
    requires forall x :: x in page.content ==> StoredUnder(rows, ids, x)
    ensures forall x :: x in MapToDTO(page).content ==> ShowsActiveRow(rows, x)
    ensures forall x :: x in MapToDTO(page).content ==> x.statusName.None? && x.leavingReasonName.None?
  {
    var mapped := MapToDTO(page);
    forall x | x in mapped.content
      ensures ShowsActiveRow(rows, x) && x.statusName.None? && x.leavingReasonName.None?
    {
      var i :| 0 <= i < |mapped.content| && mapped.content[i] == x;
      assert page.content[i] in page.content;
      var k :| k in ids && k in rows && rows[k] == page.content[i];
      VisibleIffNotDeleted(rows, statuses, reasons, clock, k);
      assert RowConsistent(rows[k], statuses, reasons, clock);
    }
  }

  /** The service bean, with the dog repository and the two reference tables injected. */
  class DogService {
    const dogRepository: DogRepository
    const statuses: StatusTable
    const reasons: ReasonTable

    ghost predicate Valid()
      reads this, dogRepository
    {
      && dogRepository.Valid()
      && dogRepository.statuses == statuses
      && StoreConsistent(dogRepository.rows, statuses, reasons, dogRepository.clock)
    }

    constructor (dogRepository: DogRepository, statuses: StatusTable, reasons: ReasonTable)
      requires dogRepository.Valid() && dogRepository.statuses == statuses
      requires StoreConsistent(dogRepository.rows, statuses, reasons, dogRepository.clock)
      ensures Valid()
      ensures this.dogRepository == dogRepository
      ensures this.statuses == statuses && this.reasons == reasons
    {
      this.dogRepository := dogRepository;
      this.statuses := statuses;
      this.reasons := reasons;
    }

    /**
     * `createDog`: resolves the status and, when its id is given, the
     * leaving reason; either failed lookup throws not-found and nothing is
     * saved. Otherwise exactly one row is added, under a fresh id, not
     * deleted, with the DTO's descriptive fields and the resolved references'
     * ids; the DTO returned is the saved entity's, names included.
     */
    method CreateDog(dogDTO: DogDTO) returns (r: Result<DtoFields, NotFound>)
      requires Valid() && dogDTO.statusId.Some?
      modifies dogRepository
      ensures Valid()
      ensures DeletionsKept(old(dogRepository.rows), dogRepository.rows)
      ensures var statusId := dogDTO.statusId.value;
              statusId !in statuses ==> r == Failure(StatusNotFound(statusId))
      ensures var reasonId := dogDTO.leavingReasonId;
              dogDTO.statusId.value in statuses && reasonId.Some? && reasonId.value !in reasons ==>
                r == Failure(LeavingReasonNotFound(reasonId.value))
      ensures r.Success? <==> dogDTO.statusId.value in statuses
                              && (dogDTO.leavingReasonId.Some? ==> dogDTO.leavingReasonId.value in reasons)
      ensures r.Failure? ==> unchanged(dogRepository)
      ensures r.Success? ==> old(dogRepository.nextId) in dogRepository.rows
      ensures r.Success? && old(dogRepository.nextId) in dogRepository.rows ==>
                var id := old(dogRepository.nextId);
                var row := dogRepository.rows[id];
                var saved := row.(status := FindStatusById(statuses, dogDTO.statusId.value),
                                  leavingReason := RequestedReason(reasons, dogDTO.leavingReasonId));
                && id !in old(dogRepository.rows)
                && dogRepository.rows == old(dogRepository.rows)[id := row]
                && row.id == Some(id)
                && row.deleted == Some(false)
                && DescriptiveOfRow(row) == DescriptiveOfDto(dogDTO.Fields())
                && row == Stored(saved)
                && row.createdAt == row.updatedAt == Some(old(dogRepository.clock))
                && r.value == ToDTO(saved)
                && r.value.id == Some(id)
                && r.value.statusName == Some(statuses[dogDTO.statusId.value])
                && (dogDTO.leavingReasonId.Some? ==>
                      r.value.leavingReasonName == Some(reasons[dogDTO.leavingReasonId.value]))
    {
      var dog := ToEntity(dogDTO);

      var status := FindStatusById(statuses, dogDTO.statusId.value);
      if status.None? {
        return Failure(StatusNotFound(dogDTO.statusId.value));
      }

      var leavingReason: Option<LeavingReason> := None;
      if dogDTO.leavingReasonId.Some? {
        leavingReason := FindLeavingReasonById(reasons, dogDTO.leavingReasonId.value);
        if leavingReason.None? {
          return Failure(LeavingReasonNotFound(dogDTO.leavingReasonId.value));
        }
      }

      dog.SetStatus(status);
      dog.SetLeavingReason(leavingReason);
      dog.SetDeleted(Some(false));

      var savedDog := dogRepository.Save(dog);
      r := Success(ToDTO(savedDog.Row()));

      ghost var id := old(dogRepository.nextId);
      ghost var row := dogRepository.rows[id];
      assert row == Stored(savedDog.Row());
      assert savedDog.Row() == row.(status := savedDog.Row().status,
                                    leavingReason := savedDog.Row().leavingReason);
      forall k | k in dogRepository.rows
        ensures RowConsistent(dogRepository.rows[k], statuses, reasons, dogRepository.clock)
      {
        if k != id {
          assert RowConsistent(old(dogRepository.rows)[k], statuses, reasons, old(dogRepository.clock));
        }
      }
    }

    /**
     * `getAllDogs`: one page of the non-deleted rows, as DTOs, each row at
     * most once, as many as the page holds; the references show ids only.
     */
    method GetAllDogs(pageable: Pageable) returns (page: Page<DtoFields>)
      requires Valid()
      ensures page == MapToDTO(FindAllNonDeletedPage(dogRepository.rows, statuses, pageable))
      ensures page.totalSize == |ActiveIds(dogRepository.rows)|
      ensures |page.content| == PageLength(page.totalSize, pageable) <= pageable.size
      ensures forall x :: x in page.content ==> ShowsActiveRow(dogRepository.rows, x)
      ensures forall i, j :: 0 <= i < j < |page.content| ==> page.content[i].id != page.content[j].id
      ensures forall x :: x in page.content ==> x.statusName.None? && x.leavingReasonName.None?
    {
      var dogs := FindAllNonDeletedPage(dogRepository.rows, dogRepository.statuses, pageable);
      page := MapToDTO(dogs);
      VisibleIdsAreActive(dogRepository.rows, statuses, reasons, dogRepository.clock);
      MappedPageShowsActiveRows(dogRepository.rows, statuses, reasons, dogRepository.clock,
                                VisibleIds(dogRepository.rows, statuses), dogs);
    }

    /**
     * `searchDogs`: one page of the non-deleted rows passing every supplied
     * filter, as DTOs, each row at most once, as many as the page holds; the
     * references show ids only.
     */
    method SearchDogs(name: Option<string>, breed: Option<string>, supplier: Option<string>,
                      pageable: Pageable) returns (page: Page<DtoFields>)
      requires Valid()
      ensures page == MapToDTO(FindByFilters(dogRepository.rows, statuses, name, breed, supplier, pageable))
      ensures page.totalSize == |FilteredIds(dogRepository.rows, statuses, name, breed, supplier)|
      ensures |page.content| == PageLength(page.totalSize, pageable) <= pageable.size
      ensures forall x :: x in page.content ==> ShowsActiveRow(dogRepository.rows, x)
      ensures forall i, j :: 0 <= i < j < |page.content| ==> page.content[i].id != page.content[j].id
      ensures forall x :: x in page.content ==> x.statusName.None? && x.leavingReasonName.None?
    {
      var dogs := FindByFilters(dogRepository.rows, dogRepository.statuses, name, breed, supplier, pageable);
      page := MapToDTO(dogs);
      MappedPageShowsActiveRows(dogRepository.rows, statuses, reasons, dogRepository.clock,
                                FilteredIds(dogRepository.rows, statuses, name, breed, supplier), dogs);
    }

    /**
     * `getDogById`: the DTO of the row with that id, or not-found when it is
     * missing or deleted. The row is read without its references' names, so
     * the DTO shows the status id and leaving-reason id but null names.
     */
    method GetDogById(id: int) returns (r: Result<DtoFields, NotFound>)
      requires Valid()
      ensures r.Success? <==> id in dogRepository.rows && dogRepository.rows[id].deleted == Some(false)
      ensures r.Failure? ==> r.error == DogNotFound(id)
      ensures r.Success? ==>
                && r.value == ToDTO(dogRepository.rows[id])
                && r.value.id == Some(id)
                && r.value.statusId.Some? && r.value.statusId.value in statuses
                && (r.value.leavingReasonId.Some? ==> r.value.leavingReasonId.value in reasons)
                && r.value.statusName.None? && r.value.leavingReasonName.None?
    {
      var dog := FindByIdNonDeleted(dogRepository.rows, dogRepository.statuses, id);
      if id in dogRepository.rows {
        VisibleIffNotDeleted(dogRepository.rows, statuses, reasons, dogRepository.clock, id);
        assert RowConsistent(dogRepository.rows[id], statuses, reasons, dogRepository.clock);
      }
      if dog.None? {
        return Failure(DogNotFound(id));
      }
      r := Success(ToDTO(dog.value));
    }

    /**
     * `getDogById` returning what `createDog` and `updateDog` return for the
     * same row: the same lookup and the same not-found, with the DTO showing
     * the status's and the leaving reason's names.
     */
    method GetDogByIdWithNames(id: int) returns (r: Result<DtoFields, NotFound>)
      requires Valid()
      ensures r.Success? <==> id in dogRepository.rows && dogRepository.rows[id].deleted == Some(false)
      ensures r.Failure? ==> r.error == DogNotFound(id)
      ensures r.Success? ==>
                && r.value == ToDTO(Resolved(dogRepository.rows[id], statuses, reasons))
                && r.value.id == Some(id)
                && r.value.statusId.Some? && r.value.statusId.value in statuses
                && r.value.statusName == Some(statuses[r.value.statusId.value])
                && (r.value.leavingReasonId.Some? ==>
                      r.value.leavingReasonId.value in reasons
                      && r.value.leavingReasonName == Some(reasons[r.value.leavingReasonId.value]))
    {
      var dog := FindByIdNonDeleted(dogRepository.rows, dogRepository.statuses, id);
      if id in dogRepository.rows {
        VisibleIffNotDeleted(dogRepository.rows, statuses, reasons, dogRepository.clock, id);
        assert RowConsistent(dogRepository.rows[id], statuses, reasons, dogRepository.clock);
      }
      if dog.None? {
        return Failure(DogNotFound(id));
      }
      r := Success(ToDTO(Resolved(dog.value, statuses, reasons)));
    }

    /**
     * `updateDog`: load-modify-write of the non-deleted row with that id. A
     * missing or deleted row, or a failed status or leaving-reason lookup,
     * throws not-found before anything is written. Otherwise the row's
     * descriptive fields are replaced from the DTO, its status is the
     * resolved one, its leaving reason the resolved one or none (the row
     * keeps their ids), and id, deleted flag and createdAt stay as they were.
     * The DTO returned is the updated entity's, names included.
     */
    method UpdateDog(id: int, dogDTO: DogDTO) returns (r: Result<DtoFields, NotFound>)
      requires Valid() && dogDTO.statusId.Some?
      modifies dogRepository
      ensures Valid()
      ensures DeletionsKept(old(dogRepository.rows), dogRepository.rows)
      ensures var rows := old(dogRepository.rows);
              !(id in rows && rows[id].deleted == Some(false)) ==> r == Failure(DogNotFound(id))
      ensures var rows := old(dogRepository.rows);
              id in rows && rows[id].deleted == Some(false) && dogDTO.statusId.value !in statuses ==>
                r == Failure(StatusNotFound(dogDTO.statusId.value))
      ensures var rows := old(dogRepository.rows);
              var reasonId := dogDTO.leavingReasonId;
              id in rows && rows[id].deleted == Some(false) && dogDTO.statusId.value in statuses
              && reasonId.Some? && reasonId.value !in reasons ==>
                r == Failure(LeavingReasonNotFound(reasonId.value))
      ensures r.Success? <==> id in old(dogRepository.rows) && old(dogRepository.rows)[id].deleted == Some(false)
                              && dogDTO.statusId.value in statuses
                              && (dogDTO.leavingReasonId.Some? ==> dogDTO.leavingReasonId.value in reasons)
      ensures r.Failure? ==> unchanged(dogRepository)
      ensures r.Success? ==> id in old(dogRepository.rows) && id in dogRepository.rows
      ensures r.Success? && id in old(dogRepository.rows) && id in dogRepository.rows ==>
                var before := old(dogRepository.rows)[id];
                var row := dogRepository.rows[id];
                var updated := row.(status := FindStatusById(statuses, dogDTO.statusId.value),
                                    leavingReason := RequestedReason(reasons, dogDTO.leavingReasonId));
                && dogRepository.rows == old(dogRepository.rows)[id := row]
                && DescriptiveOfRow(row) == DescriptiveOfDto(dogDTO.Fields())
                && row == Stored(updated)
                && row.id == before.id == Some(id)
                && row.deleted == before.deleted == Some(false)
                && row.createdAt == before.createdAt
                && row.updatedAt == Some(old(dogRepository.clock))
                && r.value == ToDTO(updated)
                && r.value.statusId == dogDTO.statusId
                && r.value.statusName == Some(statuses[dogDTO.statusId.value])
                && (dogDTO.leavingReasonId.Some? ==>
                      r.value.leavingReasonName == Some(reasons[dogDTO.leavingReasonId.value]))
    {
      var found := FindByIdNonDeleted(dogRepository.rows, dogRepository.statuses, id);
      if id in dogRepository.rows {
        VisibleIffNotDeleted(dogRepository.rows, statuses, reasons, dogRepository.clock, id);
      }
      if found.None? {
        return Failure(DogNotFound(id));
      }
      var existingDog := new Dog.FromRow(found.value);

      UpdateEntityFromDTO(dogDTO, existingDog);

      var status := FindStatusById(statuses, dogDTO.statusId.value);
      if status.None? {
        return Failure(StatusNotFound(dogDTO.statusId.value));
      }
      existingDog.SetStatus(status);

      if dogDTO.leavingReasonId.Some? {
        var leavingReason := FindLeavingReasonById(reasons, dogDTO.leavingReasonId.value);
        if leavingReason.None? {
          return Failure(LeavingReasonNotFound(dogDTO.leavingReasonId.value));
        }
        existingDog.SetLeavingReason(leavingReason);
      } else {
        existingDog.SetLeavingReason(None);
      }

      var updatedDog := dogRepository.Update(existingDog);
      r := Success(ToDTO(updatedDog.Row()));

      ghost var row := dogRepository.rows[id];
      assert row == Stored(updatedDog.Row());
      assert updatedDog.Row() == row.(status := updatedDog.Row().status,
                                      leavingReason := updatedDog.Row().leavingReason);
      assert RowConsistent(old(dogRepository.rows)[id], statuses, reasons, old(dogRepository.clock));
      forall k | k in dogRepository.rows
        ensures RowConsistent(dogRepository.rows[k], statuses, reasons, dogRepository.clock)
      {
        if k != id {
          assert RowConsistent(old(dogRepository.rows)[k], statuses, reasons, old(dogRepository.clock));
        }
      }
    }

    /**
     * `deleteDog`: not-found when no non-deleted row has that id; otherwise
     * that row's deleted flag is set to true and its updatedAt refreshed, after which
     * no read returns it.
     */
    method DeleteDog(id: int) returns (r: Outcome<NotFound>)
      requires Valid()
      modifies dogRepository
      ensures Valid()
      ensures DeletionsKept(old(dogRepository.rows), dogRepository.rows)
      ensures r.Fail? <==> !(id in old(dogRepository.rows) && old(dogRepository.rows)[id].deleted == Some(false))
      ensures r.Fail? ==> r.error == DogNotFound(id) && unchanged(dogRepository)
      ensures r.Pass? ==> dogRepository.rows == MarkDeleted(old(dogRepository.rows), id, old(dogRepository.clock))
      ensures r.Pass? ==> FindByIdNonDeleted(dogRepository.rows, statuses, id).None?
      ensures r.Pass? ==>
                VisibleIds(dogRepository.rows, statuses) == VisibleIds(old(dogRepository.rows), statuses) - {id}
    {
      var found := FindByIdNonDeleted(dogRepository.rows, dogRepository.statuses, id);
      if id in dogRepository.rows {
        VisibleIffNotDeleted(dogRepository.rows, statuses, reasons, dogRepository.clock, id);
      }
      if found.None? {
        return Fail(DogNotFound(id));
      }
      dogRepository.SoftDelete(id);
      r := Pass;
      MarkDeletedHidesOnlyThatRow(old(dogRepository.rows), statuses, id, old(dogRepository.clock));
      forall k | k in dogRepository.rows
        ensures RowConsistent(dogRepository.rows[k], statuses, reasons, dogRepository.clock)
      {
        assert RowConsistent(old(dogRepository.rows)[k], statuses, reasons, old(dogRepository.clock));
      }
    }
  }

  /**
   * The service tests' sample request: "Rex", a male German Shepherd from
   * K9 Kennels, badge K9-001, born 2020-05-15, acquired 2021-01-10, status 1,
   * friendly. Dates are days since 1970-01-01.
   */
  method TestDogDTO() returns (dto: DogDTO)
    ensures fresh(dto)
    ensures dto.Fields() == NewDtoFields.(name := Some("Rex"), breed := Some("German Shepherd"),
                                          supplier := Some("K9 Kennels"), badgeId := Some("K9-001"),
                                          gender := Some("Male"),
                                          birthDate := Some(LocalDate(18397)),
                                          dateAcquired := Some(LocalDate(18637)),
                                          statusId := Some(1),
                                          kennellingCharacteristic := Some("Friendly"))
    ensures IsValid(dto.Fields())
  {
    dto := new DogDTO();
    dto.SetName(Some("Rex"));
    dto.SetBreed(Some("German Shepherd"));
    dto.SetSupplier(Some("K9 Kennels"));
    dto.SetBadgeId(Some("K9-001"));
    dto.SetGender(Some("Male"));
    dto.SetBirthDate(Some(LocalDate(18397)));
    dto.SetDateAcquired(Some(LocalDate(18637)));
    dto.SetStatusId(Some(1));
    dto.SetKennellingCharacteristic(Some("Friendly"));
    assert "Rex"[0] > ' ';
    assert "German Shepherd"[0] > ' ';
    assert "K9 Kennels"[0] > ' ';
    assert "Male"[0] > ' ';
  }

  /**
   * The service tests' creation of the sample dog: one row is added, not
   * deleted, and the DTO returned names its status.
   */
  method CreateRex(service: DogService) returns (id: int, created: DtoFields)
    requires service.Valid() && 1 in service.statuses
    modifies service.dogRepository
    ensures service.Valid()
    ensures id !in old(service.dogRepository.rows) && id in service.dogRepository.rows
    ensures service.dogRepository.rows
            == old(service.dogRepository.rows)[id := service.dogRepository.rows[id]]
    ensures service.dogRepository.rows[id].deleted == Some(false)
    ensures service.dogRepository.rows[id].name == Some("Rex")
    ensures created.id == Some(id) && created.name == Some("Rex")
    ensures created.breed == Some("German Shepherd") && created.supplier == Some("K9 Kennels")
    ensures created.gender == Some("Male")
    ensures created.statusId == Some(1) && created.statusName == Some(service.statuses[1])
  {
    var dto := TestDogDTO();
    var r := service.CreateDog(dto);
    assert r.Success?;
    created := r.value;
    id := created.id.value;
  }

  /**
   * The service tests' update: the sample dog is created, then updated from
   * a second sample request renamed "Max", bred "Labrador Retriever" and
   * with status 2. One row was added and nothing else changed; the DTO
   * returned shows the new name, breed and status.
   */
  method CreateRexUpdateToMax(service: DogService) returns (id: int, updated: DtoFields)
    requires service.Valid() && 1 in service.statuses && 2 in service.statuses
    modifies service.dogRepository
    ensures service.Valid()
    ensures id !in old(service.dogRepository.rows) && id in service.dogRepository.rows
    ensures service.dogRepository.rows
            == old(service.dogRepository.rows)[id := service.dogRepository.rows[id]]
    ensures service.dogRepository.rows[id].deleted == Some(false)
    ensures service.dogRepository.rows[id].name == Some("Max")
    ensures service.dogRepository.rows[id].status == Some(DogStatus(2, None))
    ensures updated.id == Some(id) && updated.name == Some("Max")
    ensures updated.breed == Some("Labrador Retriever")
    ensures updated.statusId == Some(2) && updated.statusName == Some(service.statuses[2])
    ensures updated == ToDTO(Resolved(service.dogRepository.rows[id], service.statuses, service.reasons))
  {
    var created;
    id, created := CreateRex(service);
    var updateDTO := TestDogDTO();
    updateDTO.SetName(Some("Max"));
    updateDTO.SetBreed(Some("Labrador Retriever"));
    updateDTO.SetStatusId(Some(2));
    var r := service.UpdateDog(id, updateDTO);
    assert r.Success?;
    updated := r.value;
    ghost var row := service.dogRepository.rows[id];
    ResolvedUndoesStored(row.(status := FindStatusById(service.statuses, 2), leavingReason := None),
                         service.statuses, service.reasons);
  }

  /**
   * One dog's life cycle as the service tests drive it: the sample dog is
   * created and updated to "Max", read back, and deleted; afterwards reading
   * it and deleting it again both report not-found, and no other row was
   * touched. Read back, the dog shows null status and leaving-reason names,
   * where the read with names shows exactly what the update returned.
   */
  method RexLifeCycle(service: DogService) returns (id: int)
    requires service.Valid() && 1 in service.statuses && 2 in service.statuses
    modifies service.dogRepository
    ensures service.Valid()
    ensures id !in old(service.dogRepository.rows) && id in service.dogRepository.rows
    ensures service.dogRepository.rows.Keys == old(service.dogRepository.rows).Keys + {id}
    ensures forall k :: k in old(service.dogRepository.rows) ==>
              service.dogRepository.rows[k] == old(service.dogRepository.rows)[k]
    ensures service.dogRepository.rows[id].deleted == Some(true)
    ensures service.dogRepository.rows[id].name == Some("Max")
  {
    var updated;
    id, updated := CreateRexUpdateToMax(service);

    var read := service.GetDogById(id);
    assert read.Success? && read.value.name == Some("Max") && read.value.statusId == Some(2);
    assert read.value.statusName.None? && read.value != updated;
    var readWithNames := service.GetDogByIdWithNames(id);
    assert readWithNames == Success(updated);

    var deleted := service.DeleteDog(id);
    assert deleted.Pass?;

    var gone := service.GetDogById(id);
    assert gone == Failure(DogNotFound(id));
    var again := service.DeleteDog(id);
    assert again == Fail(DogNotFound(id));
  }
}
