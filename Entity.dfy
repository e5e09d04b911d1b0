/**
 * The stored dog row (`Dog`) and the two reference entities it points at
 * (`DogStatus`, `LeavingReason`), with the read-only tables those come from.
 */
module Entity {
  import opened Wrappers

  /** A calendar date. Dates are only stored and copied, never compared. */
  datatype LocalDate = LocalDate(epochDay: int)

  /** A point of the store's logical clock, standing for CURRENT_TIMESTAMP. */
  type Timestamp = nat

  /**
   * A `DogStatus` entity: identifier and display name. The name is null when
   * only the reference's id was loaded.
   */
  datatype DogStatus = DogStatus(id: int, statusName: Option<string>)

  /**
   * A `LeavingReason` entity: identifier and display name. The name is null
   * when only the reference's id was loaded.
   */
  datatype LeavingReason = LeavingReason(id: int, reasonName: Option<string>)

  /** The dog_status table, read-only: status id to status name. */
  type StatusTable = map<int, string>

  /** The leaving_reason table, read-only: reason id to reason name. */
  type ReasonTable = map<int, string>

  /** `statusRepository.findById`: the status row with that id, if there is one. */
  function FindStatusById(table: StatusTable, id: int): (r: Option<DogStatus>)
    ensures r.Some? <==> id in table
    ensures r.Some? ==> r.value.id == id && r.value.statusName == Some(table[id])
  {
    if id in table then Some(DogStatus(id, Some(table[id]))) else None
  }

  /** `reasonRepository.findById`: the leaving-reason row with that id, if there is one. */
  function FindLeavingReasonById(table: ReasonTable, id: int): (r: Option<LeavingReason>)
    ensures r.Some? <==> id in table
    ensures r.Some? ==> r.value.id == id && r.value.reasonName == Some(table[id])
  {
    if id in table then Some(LeavingReason(id, Some(table[id]))) else None
  }

  /**
   * The value held by a `Dog` object: every column of the dog table, each
   * nullable as in the entity class. `status` and `leavingReason` are the
   * many-to-one references.
   */
  datatype DogRow = DogRow(
    id: Option<int>,
    name: Option<string>,
    breed: Option<string>,
    supplier: Option<string>,
    badgeId: Option<string>,
    gender: Option<string>,
    birthDate: Option<LocalDate>,
    dateAcquired: Option<LocalDate>,
    status: Option<DogStatus>,
    leavingDate: Option<LocalDate>,
    leavingReason: Option<LeavingReason>,
    kennellingCharacteristic: Option<string>,
    deleted: Option<bool>,
    createdAt: Option<Timestamp>,
    updatedAt: Option<Timestamp>)

  /** The state of a freshly constructed `Dog`: not deleted, everything else null. */
  const NewDogRow: DogRow :=
    DogRow(None, None, None, None, None, None, None, None, None, None, None, None,
           Some(false), None, None)

  /** The mutable dog entity. A field read stands for each getter. */
  class Dog {
    var id: Option<int>
    var name: Option<string>
    var breed: Option<string>
    var supplier: Option<string>
    var badgeId: Option<string>
    var gender: Option<string>
    var birthDate: Option<LocalDate>
    var dateAcquired: Option<LocalDate>
    var status: Option<DogStatus>
    var leavingDate: Option<LocalDate>
    var leavingReason: Option<LeavingReason>
    var kennellingCharacteristic: Option<string>
    var deleted: Option<bool>
    var createdAt: Option<Timestamp>
    var updatedAt: Option<Timestamp>

    /** All fields of this entity as one value. */
    function Row(): DogRow
      reads this
    {
      DogRow(id, name, breed, supplier, badgeId, gender, birthDate, dateAcquired,
             status, leavingDate, leavingReason, kennellingCharacteristic,
             deleted, createdAt, updatedAt)
    }

    /** `new Dog()`: `deleted` starts as false, every other field as null. */
    constructor ()
      ensures Row() == NewDogRow
      ensures deleted == Some(false) && id.None? && status.None? && leavingReason.None?
    {
      id, name, breed, supplier, badgeId, gender := None, None, None, None, None, None;
      birthDate, dateAcquired, status, leavingDate := None, None, None, None;
      leavingReason, kennellingCharacteristic := None, None;
      deleted, createdAt, updatedAt := Some(false), None, None;
    }

    /** The entity the data layer builds when it reads a row back from the table. */
    constructor FromRow(row: DogRow)
      ensures Row() == row
    {
      id, name, breed, supplier, badgeId, gender :=
        row.id, row.name, row.breed, row.supplier, row.badgeId, row.gender;
      birthDate, dateAcquired, status, leavingDate :=
        row.birthDate, row.dateAcquired, row.status, row.leavingDate;
      leavingReason, kennellingCharacteristic :=
        row.leavingReason, row.kennellingCharacteristic;
      deleted, createdAt, updatedAt := row.deleted, row.createdAt, row.updatedAt;
    }

    method SetId(id: Option<int>)
      modifies this`id
      ensures Row() == old(Row()).(id := id)
    {
      this.id := id;
    }

    method SetName(name: Option<string>)
      modifies this`name
      ensures Row() == old(Row()).(name := name)
    {
      this.name := name;
    }

    method SetBreed(breed: Option<string>)
      modifies this`breed
      ensures Row() == old(Row()).(breed := breed)
    {
      this.breed := breed;
    }

    method SetSupplier(supplier: Option<string>)
      modifies this`supplier
      ensures Row() == old(Row()).(supplier := supplier)
    {
      this.supplier := supplier;
    }

    method SetBadgeId(badgeId: Option<string>)
      modifies this`badgeId
      ensures Row() == old(Row()).(badgeId := badgeId)
    {
      this.badgeId := badgeId;
    }

    method SetGender(gender: Option<string>)
      modifies this`gender
      ensures Row() == old(Row()).(gender := gender)
    {
      this.gender := gender;
    }

    method SetBirthDate(birthDate: Option<LocalDate>)
      modifies this`birthDate
      ensures Row() == old(Row()).(birthDate := birthDate)
    {
      this.birthDate := birthDate;
    }

    method SetDateAcquired(dateAcquired: Option<LocalDate>)
      modifies this`dateAcquired
      ensures Row() == old(Row()).(dateAcquired := dateAcquired)
    {
      this.dateAcquired := dateAcquired;
    }

    method SetStatus(status: Option<DogStatus>)
      modifies this`status
      ensures Row() == old(Row()).(status := status)
    {
      this.status := status;
    }

    method SetLeavingDate(leavingDate: Option<LocalDate>)
      modifies this`leavingDate
      ensures Row() == old(Row()).(leavingDate := leavingDate)
    {
      this.leavingDate := leavingDate;
    }

    method SetLeavingReason(leavingReason: Option<LeavingReason>)
      modifies this`leavingReason
      ensures Row() == old(Row()).(leavingReason := leavingReason)
    {
      this.leavingReason := leavingReason;
    }

    method SetKennellingCharacteristic(kennellingCharacteristic: Option<string>)
      modifies this`kennellingCharacteristic
      ensures Row() == old(Row()).(kennellingCharacteristic := kennellingCharacteristic)
    {
      this.kennellingCharacteristic := kennellingCharacteristic;
    }

    method SetDeleted(deleted: Option<bool>)
      modifies this`deleted
      ensures Row() == old(Row()).(deleted := deleted)
    {
      this.deleted := deleted;
    }

    method SetCreatedAt(createdAt: Option<Timestamp>)
      modifies this`createdAt
      ensures Row() == old(Row()).(createdAt := createdAt)
    {
      this.createdAt := createdAt;
    }

    method SetUpdatedAt(updatedAt: Option<Timestamp>)
      modifies this`updatedAt
      ensures Row() == old(Row()).(updatedAt := updatedAt)
    {
      this.updatedAt := updatedAt;
    }
  }
}
