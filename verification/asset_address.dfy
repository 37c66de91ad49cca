/** The resource address: a package name plus a location inside the package.
    It is a value type; identity is field-wise string equality. */
module Addresses {
  import opened Common

  datatype AssetAddress = AssetAddress(packageName: NString, location: NString)

  /** The empty address `("", "")`. */
  const Empty: AssetAddress := AssetAddress(Str(""), Str(""))

  /** `IsValid`: both fields are non-null and non-empty. */
  function IsValid(a: AssetAddress): (r: bool)
    ensures r <==> a.packageName.Str? && a.packageName.value != []
                   && a.location.Str? && a.location.value != []
  {
    !IsNullOrEmpty(a.packageName) && !IsNullOrEmpty(a.location)
  }

  /** The empty address is not a valid one. */
  lemma EmptyIsNotValid()
    ensures Empty == AssetAddress(Str(""), Str(""))
    ensures !IsValid(Empty)
  {
  }

  /** `Equals(AssetAddress)`: C# string `==` on both fields, where `null`
      equals only `null`. This is exactly equality of the two values. */
  function Equals(a: AssetAddress, b: AssetAddress): (r: bool)
    ensures r <==> a == b
  {
    a.packageName == b.packageName && a.location == b.location
  }

  /** `Equals` is an equivalence relation. */
  lemma EqualsIsEquivalence(a: AssetAddress, b: AssetAddress, c: AssetAddress)
    ensures Equals(a, a)
    ensures Equals(a, b) <==> Equals(b, a)
    ensures Equals(a, b) && Equals(b, c) ==> Equals(a, c)
  {
  }

  /** A `null` field and an empty field are told apart, although both
      addresses are invalid. */
  lemma NullFieldIsNotEmptyField(location: NString)
    ensures !Equals(AssetAddress(Null, location), AssetAddress(Str(""), location))
    ensures !IsValid(AssetAddress(Null, location)) && !IsValid(AssetAddress(Str(""), location))
  {
  }

  /** `operator ==`: agrees with `Equals`. */
  function OpEquality(left: AssetAddress, right: AssetAddress): (r: bool)
    ensures r <==> left == right
    ensures r == Equals(left, right)
  {
    Equals(left, right)
  }

  /** `operator !=`: the negation of `==`. */
  function OpInequality(left: AssetAddress, right: AssetAddress): (r: bool)
    ensures r <==> left != right
    ensures r == !OpEquality(left, right)
  {
    !Equals(left, right)
  }

  /** `GetHashCode`: `HashCode.Combine` of the two fields. `HashCode.Combine`
      is seeded per process, so the model takes it as a parameter; the
      hash depends on nothing but the two fields. */
  function GetHashCode(a: AssetAddress, combine: (NString, NString) -> int): (r: int)
    ensures forall b :: Equals(a, b) ==> r == combine(b.packageName, b.location)
  {
    combine(a.packageName, a.location)
  }

  /** Equal addresses have equal hash codes, whatever the combining function. */
  lemma EqualAddressesHashEqual(a: AssetAddress, b: AssetAddress, combine: (NString, NString) -> int)
    requires Equals(a, b)
    ensures GetHashCode(a, combine) == GetHashCode(b, combine)
  {
  }

  /** `ToString`: `"{PackageName}/{Location}"`; interpolation prints a
      `null` field as nothing. */
  function ToString(a: AssetAddress): (r: string)
    ensures |r| == |Render(a.packageName)| + 1 + |Render(a.location)|
    ensures r[..|Render(a.packageName)|] == Render(a.packageName)
    ensures r[|Render(a.packageName)|] == '/'
    ensures r[|Render(a.packageName)| + 1..] == Render(a.location)
  {
    Render(a.packageName) + "/" + Render(a.location)
  }

  /** `ToString` is not injective: a `/` may sit in either field. */
  lemma ToStringIsNotInjective()
    ensures var a := AssetAddress(Str("a/b"), Str("c"));
            var b := AssetAddress(Str("a"), Str("b/c"));
            ToString(a) == ToString(b) && !Equals(a, b)
  {
    assert ToString(AssetAddress(Str("a/b"), Str("c"))) == "a/b/c";
    assert ToString(AssetAddress(Str("a"), Str("b/c"))) == "a/b/c";
  }

  /** `ToString` does not tell a `null` field from an empty one either. */
  lemma ToStringForgetsNull(location: NString)
    ensures ToString(AssetAddress(Null, location)) == ToString(AssetAddress(Str(""), location))
    ensures !Equals(AssetAddress(Null, location), AssetAddress(Str(""), location))
  {
  }

  /** When no `/` occurs in a package name, the printed form determines both
      printed fields: the first `/` marks the end of the package name. */
  lemma ToStringSplitsAtFirstSlash(a: AssetAddress, b: AssetAddress)
    requires '/' !in Render(a.packageName) && '/' !in Render(b.packageName)
    requires ToString(a) == ToString(b)
    ensures Render(a.packageName) == Render(b.packageName)
    ensures Render(a.location) == Render(b.location)
  {
  }
}
