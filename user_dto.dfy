/** `UserDTO` and the Bean Validation constraints declared on its fields,
    evaluated explicitly. Each constraint that fails contributes one field
    error with the message declared on it. The `@Email` syntax rule is a
    library regular expression; it is a parameter here (`emailOk`). */
module Validation {
  import opened Wrappers
  import opened Text
  import opened ErrorResponses

  datatype UserDTO = UserDTO(id: Option<int>, name: Option<string>, email: Option<string>, age: Option<int>)

  const NameEmpty: string := "Name could not be empty"
  const NameSize: string := "Name should be between 2 and 30 chars"
  const EmailInvalid: string := "Email should be valid"
  const EmailEmpty: string := "Email should not be empty"
  const AgeTooSmall: string := "Age should be more than 0"
  const AgeTooLarge: string := "Age should be less than 150"

  const NameMin: int := 2
  const NameMax: int := 30
  const AgeMin: int := 0
  const AgeMax: int := 150

  /** A request the constraints accept, stated field by field. */
  predicate IsValid(dto: UserDTO, emailOk: string -> bool) {
    && dto.name.Some? && NameMin <= Utf16Length(dto.name.value) <= NameMax
    && dto.email.Some? && |dto.email.value| > 0 && emailOk(dto.email.value)
    && (dto.age.None? || AgeMin <= dto.age.value <= AgeMax)
  }

  /** `@NotEmpty` rejects a missing or empty name; `@Size` ignores a missing one and
      measures a present one as `String.length()` does, in UTF-16 code units. */
  function NameErrors(name: Option<string>): (r: seq<FieldError>)
    ensures FieldError("name", NameEmpty) in r <==> name.None? || |name.value| == 0
    ensures FieldError("name", NameSize) in r <==> name.Some? && !(NameMin <= Utf16Length(name.value) <= NameMax)
    ensures forall e :: e in r ==> e == FieldError("name", NameEmpty) || e == FieldError("name", NameSize)
    ensures r == [] <==> name.Some? && NameMin <= Utf16Length(name.value) <= NameMax
  {
    (if name.None? || |name.value| == 0 then [FieldError("name", NameEmpty)] else [])
    + (if name.Some? && !(NameMin <= Utf16Length(name.value) <= NameMax) then [FieldError("name", NameSize)] else [])
  }

  /** `@NotEmpty` rejects a missing or empty email; `@Email` accepts those and judges the rest. */
  function EmailErrors(email: Option<string>, emailOk: string -> bool): (r: seq<FieldError>)
    ensures FieldError("email", EmailEmpty) in r <==> email.None? || |email.value| == 0
    ensures FieldError("email", EmailInvalid) in r <==> email.Some? && |email.value| > 0 && !emailOk(email.value)
    ensures forall e :: e in r ==> e == FieldError("email", EmailEmpty) || e == FieldError("email", EmailInvalid)
    ensures r == [] <==> email.Some? && |email.value| > 0 && emailOk(email.value)
  {
    if email.None? || |email.value| == 0 then [FieldError("email", EmailEmpty)]
    else if !emailOk(email.value) then [FieldError("email", EmailInvalid)]
    else []
  }

  /** `@Min(0)` and `@Max(150)`; both accept a missing age. */
  function AgeErrors(age: Option<int>): (r: seq<FieldError>)
    ensures FieldError("age", AgeTooSmall) in r <==> age.Some? && age.value < AgeMin
    ensures FieldError("age", AgeTooLarge) in r <==> age.Some? && age.value > AgeMax
    ensures forall e :: e in r ==> e == FieldError("age", AgeTooSmall) || e == FieldError("age", AgeTooLarge)
    ensures r == [] <==> age.None? || AgeMin <= age.value <= AgeMax
  {
    if age.Some? && age.value < AgeMin then [FieldError("age", AgeTooSmall)]
    else if age.Some? && age.value > AgeMax then [FieldError("age", AgeTooLarge)]
    else []
  }

  /** The field errors of a request, field by field in declaration order. */
  function Validate(dto: UserDTO, emailOk: string -> bool): (r: seq<FieldError>)
    ensures r == [] <==> IsValid(dto, emailOk)
    ensures forall e :: e in r ==> e.field in {"name", "email", "age"}
    ensures forall e :: e in r ==> e.field != "id"
  {
    NameErrors(dto.name) + EmailErrors(dto.email, emailOk) + AgeErrors(dto.age)
  }

  /** `@Size` counts a character outside the Basic Multilingual Plane twice: one such
      character is a name of size 2, and sixteen of them exceed the maximum. */
  lemma NameSizeInCodeUnits()
    ensures NameErrors(Some("\U{1F600}")) == []
    ensures NameErrors(Some("a")) == [FieldError("name", NameSize)]
    ensures NameErrors(Some(seq(16, _ => '\U{1F600}'))) == [FieldError("name", NameSize)]
  {
    var wide := seq(16, _ => '\U{1F600}');
    assert forall i :: 0 <= i < |wide| ==> (wide[i] as int) >= 0x1_0000;
    assert Utf16Length(wide) == 32;
  }

  /** No field name or message the validator uses contains `;`. */
  lemma MessagesWithoutSemicolon()
    ensures ';' !in NameEmpty && ';' !in NameSize
    ensures ';' !in EmailEmpty && ';' !in EmailInvalid
    ensures ';' !in AgeTooSmall && ';' !in AgeTooLarge
    ensures ';' !in "name" && ';' !in "email" && ';' !in "age"
  {
  }

  /** Every rejection the validator produces can be cut back into its errors
      (see `ErrorMessageSplitsIntoErrors`). */
  lemma ValidationErrorsSeparatorFree(dto: UserDTO, emailOk: string -> bool)
    ensures SeparatorFree(Validate(dto, emailOk))
  {
    MessagesWithoutSemicolon();
    var n, m, g := NameErrors(dto.name), EmailErrors(dto.email, emailOk), AgeErrors(dto.age);
    var r := Validate(dto, emailOk);
    assert r == n + m + g;
    forall i | 0 <= i < |r| ensures !ContainsSeparator(Render(r[i])) {
      assert r[i] in n || r[i] in m || r[i] in g;
      RenderSeparatorFree(r[i]);
    }
  }
}
