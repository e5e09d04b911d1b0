/**
 * The dog data-transfer object: a mutable bean carrying a dog record across
 * the service boundary, and the bean-validation constraints declared on it.
 */
module Dto {
  import opened Wrappers
  import opened Entity

  /** The value held by a `DogDTO` object; every field is nullable. */
  datatype DtoFields = DtoFields(
    id: Option<int>,
    name: Option<string>,
    breed: Option<string>,
    supplier: Option<string>,
    badgeId: Option<string>,
    gender: Option<string>,
    birthDate: Option<LocalDate>,
    dateAcquired: Option<LocalDate>,
    statusId: Option<int>,
    statusName: Option<string>,
    leavingDate: Option<LocalDate>,
    leavingReasonId: Option<int>,
    leavingReasonName: Option<string>,
    kennellingCharacteristic: Option<string>)

  /** The state of `new DogDTO()`: every field null. */
  const NewDtoFields: DtoFields :=
    DtoFields(None, None, None, None, None, None, None, None, None, None, None, None, None, None)

  /** Java's `String.trim`: drops leading and trailing characters up to U+0020. */
  function Trim(s: string): (r: string)
    ensures |r| <= |s|
    ensures r == [] <==> forall i :: 0 <= i < |s| ==> s[i] <= ' '
  {
    TrimEnd(TrimStart(s))
  }

  function TrimStart(s: string): (r: string)
    ensures |r| <= |s|
    ensures r == [] <==> forall i :: 0 <= i < |s| ==> s[i] <= ' '
    ensures r != [] ==> r[0] > ' ' && r[|r| - 1] == s[|s| - 1]
  {
    if s != [] && s[0] <= ' ' then TrimStart(s[1..]) else s
  }

  function TrimEnd(s: string): (r: string)
    ensures |r| <= |s|
    ensures s != [] && s[0] > ' ' ==> r != [] && r[|r| - 1] > ' '
    ensures r == [] <==> forall i :: 0 <= i < |s| ==> s[i] <= ' '
  {
    if s != [] && s[|s| - 1] <= ' ' then TrimEnd(s[..|s| - 1]) else s
  }

  /**
   * `@NotBlank`: not null, and not empty once trimmed; that is, not null
   * and holding some character above U+0020.
   */
  predicate NotBlank(s: Option<string>)
    ensures NotBlank(s) <==> s.Some? && exists i :: 0 <= i < |s.value| && s.value[i] > ' '
  {
    s.Some? && Trim(s.value) != []
  }

  /**
   * The constraints declared on the bean: name, breed, supplier and gender
   * are `@NotBlank`; birthDate, dateAcquired and statusId are `@NotNull`.
   * No other field is constrained.
   */
  predicate IsValid(d: DtoFields)
    ensures IsValid(d) ==> d.name.Some? && d.breed.Some? && d.supplier.Some? && d.gender.Some?
    ensures d.birthDate.None? || d.dateAcquired.None? || d.statusId.None? ==> !IsValid(d)
  {
    && NotBlank(d.name)
    && NotBlank(d.breed)
    && NotBlank(d.supplier)
    && NotBlank(d.gender)
    && d.birthDate.Some?
    && d.dateAcquired.Some?
    && d.statusId.Some?
  }

  /** A freshly constructed DTO violates its constraints. */
  lemma NewDtoIsInvalid()
    ensures !IsValid(NewDtoFields)
  {
  }

  /** Empty or whitespace-only names, breeds, suppliers or genders make a DTO invalid. */
  lemma {:induction false} BlankRequiredFieldInvalid(d: DtoFields, blank: string)
    requires forall i :: 0 <= i < |blank| ==> blank[i] <= ' '
    requires d.name == Some(blank) || d.breed == Some(blank)
          || d.supplier == Some(blank) || d.gender == Some(blank)
    ensures !IsValid(d)
  {
    assert Trim(blank) == [];
  }

  /**
   * The fields without a constraint (id, badgeId, statusName, leavingDate,
   * leavingReasonId, leavingReasonName, kennellingCharacteristic) never
   * decide validity: any values, null included, leave it as it was.
   */
  lemma UnconstrainedFieldsFree(d: DtoFields, id: Option<int>, badgeId: Option<string>,
                                statusName: Option<string>, leavingDate: Option<LocalDate>,
                                leavingReasonId: Option<int>, leavingReasonName: Option<string>,
                                kennellingCharacteristic: Option<string>)
    ensures IsValid(d) <==> IsValid(d.(id := id, badgeId := badgeId, statusName := statusName,
                                      leavingDate := leavingDate, leavingReasonId := leavingReasonId,
                                      leavingReasonName := leavingReasonName,
                                      kennellingCharacteristic := kennellingCharacteristic))
  {
  }

  /** The mutable DTO bean. A field read stands for each getter. */
  class DogDTO {
    var id: Option<int>
    var name: Option<string>
    var breed: Option<string>
    var supplier: Option<string>
    var badgeId: Option<string>
    var gender: Option<string>
    var birthDate: Option<LocalDate>
    var dateAcquired: Option<LocalDate>
    var statusId: Option<int>
    var statusName: Option<string>
    var leavingDate: Option<LocalDate>
    var leavingReasonId: Option<int>
    var leavingReasonName: Option<string>
    var kennellingCharacteristic: Option<string>

    /** All fields of this bean as one value. */
    function Fields(): DtoFields
      reads this
    {
      DtoFields(id, name, breed, supplier, badgeId, gender, birthDate, dateAcquired,
                statusId, statusName, leavingDate, leavingReasonId, leavingReasonName,
                kennellingCharacteristic)
    }

    /** `new DogDTO()`: every field null, so the bean is not yet valid. */
    constructor ()
      ensures Fields() == NewDtoFields
      ensures !IsValid(Fields())
    {
      id, name, breed, supplier, badgeId, gender := None, None, None, None, None, None;
      birthDate, dateAcquired, statusId, statusName := None, None, None, None;
      leavingDate, leavingReasonId, leavingReasonName := None, None, None;
      kennellingCharacteristic := None;
    }

    method SetId(id: Option<int>)
      modifies this`id
      ensures Fields() == old(Fields()).(id := id)
    {
      this.id := id;
    }

    method SetName(name: Option<string>)
      modifies this`name
      ensures Fields() == old(Fields()).(name := name)
    {
      this.name := name;
    }

    method SetBreed(breed: Option<string>)
      modifies this`breed
      ensures Fields() == old(Fields()).(breed := breed)
    {
      this.breed := breed;
    }

    method SetSupplier(supplier: Option<string>)
      modifies this`supplier
      ensures Fields() == old(Fields()).(supplier := supplier)
    {
      this.supplier := supplier;
    }

    method SetBadgeId(badgeId: Option<string>)
      modifies this`badgeId
      ensures Fields() == old(Fields()).(badgeId := badgeId)
    {
      this.badgeId := badgeId;
    }

    method SetGender(gender: Option<string>)
      modifies this`gender
      ensures Fields() == old(Fields()).(gender := gender)
    {
      this.gender := gender;
    }

    method SetBirthDate(birthDate: Option<LocalDate>)
      modifies this`birthDate
      ensures Fields() == old(Fields()).(birthDate := birthDate)
    {
      this.birthDate := birthDate;
    }

    method SetDateAcquired(dateAcquired: Option<LocalDate>)
      modifies this`dateAcquired
      ensures Fields() == old(Fields()).(dateAcquired := dateAcquired)
    {
      this.dateAcquired := dateAcquired;
    }

    method SetStatusId(statusId: Option<int>)
      modifies this`statusId
      ensures Fields() == old(Fields()).(statusId := statusId)
    {
      this.statusId := statusId;
    }

    method SetStatusName(statusName: Option<string>)
      modifies this`statusName
      ensures Fields() == old(Fields()).(statusName := statusName)
    {
      this.statusName := statusName;
    }

    method SetLeavingDate(leavingDate: Option<LocalDate>)
      modifies this`leavingDate
      ensures Fields() == old(Fields()).(leavingDate := leavingDate)
    {
      this.leavingDate := leavingDate;
    }

    method SetLeavingReasonId(leavingReasonId: Option<int>)
      modifies this`leavingReasonId
      ensures Fields() == old(Fields()).(leavingReasonId := leavingReasonId)
    {
      this.leavingReasonId := leavingReasonId;
    }

    method SetLeavingReasonName(leavingReasonName: Option<string>)
      modifies this`leavingReasonName
      ensures Fields() == old(Fields()).(leavingReasonName := leavingReasonName)
    {
      this.leavingReasonName := leavingReasonName;
    }

    method SetKennellingCharacteristic(kennellingCharacteristic: Option<string>)
      modifies this`kennellingCharacteristic
      ensures Fields() == old(Fields()).(kennellingCharacteristic := kennellingCharacteristic)
    {
      this.kennellingCharacteristic := kennellingCharacteristic;
    }
  }
}
