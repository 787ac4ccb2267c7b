/** `Title`: the title of a flight-authorisation request, an immutable
    string value of at most 255 UTF-16 code units. */
module FlightAuthorizationTitle {
  import opened Wrappers
  import JavaStrings

  const MaxLength: nat := 255

  /** `isValid`: Java's `length()` counts UTF-16 code units. */
  predicate IsValid(value: string)
  {
    JavaStrings.Utf16Length(value) <= MaxLength
  }

  /** The value object; Lombok's `@EqualsAndHashCode` makes two titles equal
      when their values are, which is datatype equality. */
  datatype Title = Title(value: string)

  /** The titles the private constructor can build. */
  type ValidTitle = t: Title | IsValid(t.value) witness Title("")

  /** `require(isValid(value))` fails with valid4j's `RequireViolation`;
      `isValid(null)` dereferences null first. */
  datatype TitleError = NullPointer | RequireViolation

  /** `Title.of(value)`. */
  function Of(value: Option<string>): (r: Result<ValidTitle, TitleError>)
    ensures value.None? ==> r == Failure(NullPointer)
    ensures value.Some? ==> (r.Success? <==> IsValid(value.value))
    ensures value.Some? && r.Failure? ==> r.error == RequireViolation
    ensures r.Success? ==> value == Some(r.value.value)
  {
    match value
    case None => Failure(NullPointer)
    case Some(v) => if IsValid(v) then Success(Title(v)) else Failure(RequireViolation)
  }

  /** `getValue`. */
  function GetValue(t: ValidTitle): string
  {
    t.value
  }

  /** `toString`. */
  function ToString(t: ValidTitle): string
  {
    t.value
  }

  /** A value of at most 255 characters from the Basic Multilingual Plane
      is accepted, and one longer than 255 characters never is; a character
      outside that plane counts twice. */
  lemma IsValidBounds(value: string)
    ensures |value| > MaxLength ==> !IsValid(value)
    ensures (forall i :: 0 <= i < |value| ==> (value[i] as int) < 0x1_0000) ==>
      (IsValid(value) <==> |value| <= MaxLength)
    ensures 2 * |value| <= MaxLength ==> IsValid(value)
  {
  }

  /** For a valid value, `of(v).getValue()` and `of(v).toString()` both
      give `v` back. */
  lemma OfRoundTrip(v: string)
    requires IsValid(v)
    ensures Of(Some(v)).Success?
    ensures GetValue(Of(Some(v)).value) == v && ToString(Of(Some(v)).value) == v
  {
  }

  /** Two titles built by `of` are equal exactly when their values are. */
  lemma OfEquality(u: string, v: string)
    requires IsValid(u) && IsValid(v)
    ensures Of(Some(u)) == Of(Some(v)) <==> u == v
  {
  }

  /** A character outside the Basic Multilingual Plane takes two of the 255
      code units: a value made of such characters is accepted exactly when
      it has at most 127 of them. */
  lemma SupplementaryCharactersCountTwice(v: string)
    requires forall i :: 0 <= i < |v| ==> (v[i] as int) >= 0x1_0000
    ensures IsValid(v) <==> |v| <= 127
    ensures Of(Some(v)).Success? <==> |v| <= 127
  {
    SupplementaryLength(v);
  }

  lemma {:induction false} SupplementaryLength(v: string)
    requires forall i :: 0 <= i < |v| ==> (v[i] as int) >= 0x1_0000
    ensures JavaStrings.Utf16Length(v) == 2 * |v|
  {
    if v != [] {
      assert forall i :: 0 <= i < |v[1..]| ==> v[1..][i] == v[i + 1];
      SupplementaryLength(v[1..]);
    }
  }
}
