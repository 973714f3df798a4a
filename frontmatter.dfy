// Frontmatter values and the helpers that normalise and compare them:
// convertToArray, toCapitalizeFirstLetter and isMatchAnyCase.
module Frontmatter {
  import opened Text

  /** A scalar frontmatter value. Numbers are integral in this model. */
  datatype Scalar = Str(s: string) | Num(n: int) | Bool(b: bool)

  /** The value of one frontmatter key: absent/null, a scalar, or a list. */
  datatype Value = Null | One(scalar: Scalar) | Many(items: seq<Scalar>)

  /** A frontmatter record: keys in the order `Object.keys` yields them. The
      structural `position` key is an ordinary entry here. */
  type Record = seq<(string, Value)>

  /** Field name to the values seen for it in other notes. */
  type ValueIndex = map<string, seq<Scalar>>

  function Keys(fm: Record): (ks: seq<string>)
    ensures |ks| == |fm|
  {
    seq(|fm|, i requires 0 <= i < |fm| => fm[i].0)
  }

  /** `frontmatter[key]`; a missing key reads as Null (undefined). */
  function Lookup(fm: Record, key: string): Value
  {
    if fm == [] then Null
    else if fm[0].0 == key then fm[0].1
    else Lookup(fm[1..], key)
  }

  /** JavaScript truthiness of a scalar: "", 0 and false are falsy. */
  predicate Truthy(x: Scalar)
  {
    match x
    case Str(s) => s != ""
    case Num(n) => n != 0
    case Bool(b) => b
  }

  /** JavaScript truthiness of a value: null is falsy and every list is truthy. */
  predicate ValueTruthy(v: Value)
  {
    match v
    case Null => false
    case One(x) => Truthy(x)
    case Many(_) => true
  }

  /** `convertToArray(value, true)`: a copy of a list, a truthy scalar as a
      one-element list, anything falsy as the empty list. */
  function ConvertToArray(v: Value): seq<Scalar>
  {
    match v
    case Many(items) => items
    case One(x) => if Truthy(x) then [x] else []
    case Null => []
  }

  /** `value.toString()` */
  function ScalarToString(x: Scalar): string
  {
    match x
    case Str(s) => s
    case Num(n) => IntToString(n)
    case Bool(b) => if b then "true" else "false"
  }

  /** `toCapitalizeFirstLetter(str)`: first character upper-cased, the rest
      lower-cased. */
  function CapitalizeFirstLetter(s: string): (r: string)
    ensures |r| == |s|
  {
    if s == [] then [] else [UpperChar(s[0])] + Lower(s)[1..]
  }

  /** `isMatchAnyCase(a, b)` */
  predicate IsMatchAnyCase(a: string, b: string)
  {
    Lower(a) == Lower(b) || CapitalizeFirstLetter(a) == CapitalizeFirstLetter(b)
  }

  /** convertToArray keeps every element of a list, including falsy ones, and a
      scalar only when it is truthy. */
  lemma ConvertToArrayKeeps(v: Value, x: Scalar)
    ensures x in ConvertToArray(v) <==>
      (v.Many? && x in v.items) || (v.One? && v.scalar == x && Truthy(x))
  {
  }

  /** With ASCII case mapping the capitalised comparison adds nothing:
      isMatchAnyCase is exactly case-insensitive equality. */
  lemma IsMatchAnyCaseIsCaseInsensitiveEquality(a: string, b: string)
    ensures IsMatchAnyCase(a, b) <==> Lower(a) == Lower(b)
  {
    if CapitalizeFirstLetter(a) == CapitalizeFirstLetter(b) && a != [] {
      UpperLowerAgree(a[0], b[0]);
      assert UpperChar(a[0]) == CapitalizeFirstLetter(a)[0];
      forall i | 0 <= i < |a| ensures Lower(a)[i] == Lower(b)[i] {
        if i > 0 {
          assert Lower(a)[i] == CapitalizeFirstLetter(a)[i];
          assert Lower(b)[i] == CapitalizeFirstLetter(b)[i];
        }
      }
    }
  }

  /** isMatchAnyCase is reflexive, symmetric and transitive. */
  lemma IsMatchAnyCaseIsEquivalence(a: string, b: string, c: string)
    ensures IsMatchAnyCase(a, a)
    ensures IsMatchAnyCase(a, b) ==> IsMatchAnyCase(b, a)
    ensures IsMatchAnyCase(a, b) && IsMatchAnyCase(b, c) ==> IsMatchAnyCase(a, c)
  {
    IsMatchAnyCaseIsCaseInsensitiveEquality(a, b);
    IsMatchAnyCaseIsCaseInsensitiveEquality(b, c);
    IsMatchAnyCaseIsCaseInsensitiveEquality(a, c);
  }
}
