/**
 * The entity/DTO mapper: which fields each conversion copies, which it
 * fills from the status and leaving-reason references, and which it leaves
 * alone.
 */
module Mapper {
  import opened Wrappers
  import opened Entity
  import opened Dto

  /** The descriptive fields that the entity and the DTO share by name. */
  datatype Descriptive = Descriptive(
    name: Option<string>,
    breed: Option<string>,
    supplier: Option<string>,
    badgeId: Option<string>,
    gender: Option<string>,
    birthDate: Option<LocalDate>,
    dateAcquired: Option<LocalDate>,
    leavingDate: Option<LocalDate>,
    kennellingCharacteristic: Option<string>)

  function DescriptiveOfRow(r: DogRow): Descriptive
  {
    Descriptive(r.name, r.breed, r.supplier, r.badgeId, r.gender, r.birthDate,
                r.dateAcquired, r.leavingDate, r.kennellingCharacteristic)
  }

  function DescriptiveOfDto(d: DtoFields): Descriptive
  {
    Descriptive(d.name, d.breed, d.supplier, d.badgeId, d.gender, d.birthDate,
                d.dateAcquired, d.leavingDate, d.kennellingCharacteristic)
  }

  /**
   * The entity fields that the DTO-to-entity conversions are told to ignore:
   * id, status, leavingReason, deleted, createdAt and updatedAt.
   */
  predicate SameIgnoredFields(a: DogRow, b: DogRow)
  {
    && a.id == b.id
    && a.status == b.status
    && a.leavingReason == b.leavingReason
    && a.deleted == b.deleted
    && a.createdAt == b.createdAt
    && a.updatedAt == b.updatedAt
  }

  /** An entity is fully described by its descriptive and its ignored fields. */
  lemma RowDeterminedByParts(a: DogRow, b: DogRow)
    requires DescriptiveOfRow(a) == DescriptiveOfRow(b) && SameIgnoredFields(a, b)
    ensures a == b
  {
  }

  /** `dog` with its descriptive fields replaced by `d`, nulls included. */
  function Overwrite(dog: DogRow, d: Descriptive): (r: DogRow)
    ensures DescriptiveOfRow(r) == d
    ensures SameIgnoredFields(r, dog)
  {
    dog.(name := d.name, breed := d.breed, supplier := d.supplier, badgeId := d.badgeId,
         gender := d.gender, birthDate := d.birthDate, dateAcquired := d.dateAcquired,
         leavingDate := d.leavingDate, kennellingCharacteristic := d.kennellingCharacteristic)
  }

  /**
   * `toDTO`: copies id and the descriptive fields; statusId and statusName
   * come from the status, leavingReasonId and leavingReasonName from the
   * leaving reason, each pair null when its reference is null.
   */
  function ToDTO(dog: DogRow): (dto: DtoFields)
    ensures dto.id == dog.id
    ensures DescriptiveOfDto(dto) == DescriptiveOfRow(dog)
    ensures dog.status.Some? ==>
              dto.statusId == Some(dog.status.value.id)
              && dto.statusName == dog.status.value.statusName
    ensures dog.status.None? ==> dto.statusId.None? && dto.statusName.None?
    ensures dog.leavingReason.Some? ==>
              dto.leavingReasonId == Some(dog.leavingReason.value.id)
              && dto.leavingReasonName == dog.leavingReason.value.reasonName
    ensures dog.leavingReason.None? ==> dto.leavingReasonId.None? && dto.leavingReasonName.None?
  {
    DtoFields(
      dog.id, dog.name, dog.breed, dog.supplier, dog.badgeId, dog.gender,
      dog.birthDate, dog.dateAcquired,
      if dog.status.Some? then Some(dog.status.value.id) else None,
      if dog.status.Some? then dog.status.value.statusName else None,
      dog.leavingDate,
      if dog.leavingReason.Some? then Some(dog.leavingReason.value.id) else None,
      if dog.leavingReason.Some? then dog.leavingReason.value.reasonName else None,
      dog.kennellingCharacteristic)
  }

  /** `toDTOList`: one DTO per entity, in the same order. */
  function ToDTOList(dogs: seq<DogRow>): (dtos: seq<DtoFields>)
    ensures |dtos| == |dogs|
    ensures forall i :: 0 <= i < |dogs| ==> dtos[i] == ToDTO(dogs[i])
  {
    if dogs == [] then [] else [ToDTO(dogs[0])] + ToDTOList(dogs[1..])
  }

  /**
   * The value `toEntity` builds: a new entity (so not deleted, no id, no
   * references, no timestamps) carrying the DTO's descriptive fields. No
   * other DTO field reaches the entity.
   */
  function EntityOf(d: DtoFields): (dog: DogRow)
    ensures DescriptiveOfRow(dog) == DescriptiveOfDto(d)
    ensures SameIgnoredFields(dog, NewDogRow)
    ensures dog.id.None? && dog.deleted == Some(false)
  {
    Overwrite(NewDogRow, DescriptiveOfDto(d))
  }

  /**
   * The value `updateEntityFromDTO` leaves in its target: every descriptive
   * field replaced from the DTO, id, references, deleted flag and timestamps
   * untouched.
   */
  function UpdatedFrom(d: DtoFields, dog: DogRow): (r: DogRow)
    ensures DescriptiveOfRow(r) == DescriptiveOfDto(d)
    ensures SameIgnoredFields(r, dog)
  {
    Overwrite(dog, DescriptiveOfDto(d))
  }

  /** The value `setRelations` leaves in its target: only the two references change. */
  function WithRelations(dog: DogRow, status: Option<DogStatus>,
                         leavingReason: Option<LeavingReason>): (r: DogRow)
    ensures r.status == status && r.leavingReason == leavingReason
    ensures DescriptiveOfRow(r) == DescriptiveOfRow(dog)
    ensures r.id == dog.id && r.deleted == dog.deleted
    ensures r.createdAt == dog.createdAt && r.updatedAt == dog.updatedAt
  {
    dog.(status := status, leavingReason := leavingReason)
  }

  /** The DTO's id, status and leaving-reason fields have no influence on `toEntity`. */
  lemma EntityIgnoresDtoIdentity(d1: DtoFields, d2: DtoFields)
    requires DescriptiveOfDto(d1) == DescriptiveOfDto(d2)
    ensures EntityOf(d1) == EntityOf(d2)
  {
  }

  /** Round trip: a DTO turned into an entity and back keeps every descriptive field. */
  lemma DescriptiveRoundTrip(d: DtoFields)
    ensures DescriptiveOfDto(ToDTO(EntityOf(d))) == DescriptiveOfDto(d)
    ensures ToDTO(EntityOf(d)).id.None?
  {
  }

  /**
   * Update is a full replace: the result does not depend on the target's old
   * descriptive fields, and applying the same DTO twice changes nothing more.
   */
  lemma UpdateIsFullReplace(d: DtoFields, a: DogRow, b: DogRow)
    requires SameIgnoredFields(a, b)
    ensures UpdatedFrom(d, a) == UpdatedFrom(d, b)
    ensures UpdatedFrom(d, UpdatedFrom(d, a)) == UpdatedFrom(d, a)
  {
    RowDeterminedByParts(UpdatedFrom(d, a), UpdatedFrom(d, b));
    RowDeterminedByParts(UpdatedFrom(d, UpdatedFrom(d, a)), UpdatedFrom(d, a));
  }

  /** `toEntity`: a fresh entity built from the DTO with the default constructor and setters. */
  method ToEntity(dto: DogDTO) returns (dog: Dog)
    ensures fresh(dog)
    ensures dog.Row() == EntityOf(dto.Fields())
  {
    dog := new Dog();
    dog.SetName(dto.name);
    dog.SetBreed(dto.breed);
    dog.SetSupplier(dto.supplier);
    dog.SetBadgeId(dto.badgeId);
    dog.SetGender(dto.gender);
    dog.SetBirthDate(dto.birthDate);
    dog.SetDateAcquired(dto.dateAcquired);
    dog.SetLeavingDate(dto.leavingDate);
    dog.SetKennellingCharacteristic(dto.kennellingCharacteristic);
  }

  /** `updateEntityFromDTO`: overwrites the target's descriptive fields in place. */
  method UpdateEntityFromDTO(dto: DogDTO, dog: Dog)
    modifies dog
    ensures dog.Row() == UpdatedFrom(dto.Fields(), old(dog.Row()))
  {
    dog.SetName(dto.name);
    dog.SetBreed(dto.breed);
    dog.SetSupplier(dto.supplier);
    dog.SetBadgeId(dto.badgeId);
    dog.SetGender(dto.gender);
    dog.SetBirthDate(dto.birthDate);
    dog.SetDateAcquired(dto.dateAcquired);
    dog.SetLeavingDate(dto.leavingDate);
    dog.SetKennellingCharacteristic(dto.kennellingCharacteristic);
  }

  /** `setRelations`: sets the two references in place and hands back the same entity. */
  method SetRelations(dog: Dog, status: Option<DogStatus>, leavingReason: Option<LeavingReason>)
    returns (r: Dog)
    modifies dog
    ensures r == dog
    ensures dog.Row() == WithRelations(old(dog.Row()), status, leavingReason)
  {
    dog.SetStatus(status);
    dog.SetLeavingReason(leavingReason);
    r := dog;
  }
}
