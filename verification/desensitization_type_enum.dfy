/** The kinds of data masking, each with a number. */
module DesensitizationTypeEnum {
  import opened Wrappers
  import BaseEnum

  datatype DesensitizationType =
    | MyRule | UserId | ChineseName | IdCard | FixedPhone | MobilePhone
    | Address | Email | Password | CarLicense | BankCard

  /** The constants in declaration order, `values()`. */
  const Values: seq<DesensitizationType> :=
    [MyRule, UserId, ChineseName, IdCard, FixedPhone, MobilePhone, Address, Email, Password, CarLicense, BankCard]

  /** `getValue()`. */
  function Value(t: DesensitizationType): int {
    match t
      case MyRule => 0
      case UserId => 1
      case ChineseName => 2
      case IdCard => 3
      case FixedPhone => 4
      case MobilePhone => 5
      case Address => 6
      case Email => 7
      case Password => 8
      case CarLicense => 9
      case BankCard => 10
  }

  /** The values are 0 to 10 in declaration order, so every constant is listed and no two share a value. */
  lemma ValuesInOrder()
    ensures |Values| == 11
    ensures forall i :: 0 <= i < |Values| ==> Value(Values[i]) == i
    ensures forall t: DesensitizationType :: t in Values
  {
    forall t: DesensitizationType
      ensures t in Values
    {
      assert Values[Value(t)] == t;
    }
  }

  /** At most one constant matches a given value. */
  lemma {:induction false} EqualsValueUnique(a: DesensitizationType, b: DesensitizationType, v: Option<int>)
    requires BaseEnum.EqualsValue(Value(a), v) && BaseEnum.EqualsValue(Value(b), v)
    ensures a == b
  {
    ValuesInOrder();
    assert Values[Value(a)] == a && Values[Value(b)] == b;
  }

  /** Exactly the values 0 to 10 are matched, each by the constant at that position. */
  lemma {:induction false} EqualsValueMatches(v: int)
    ensures (exists t: DesensitizationType :: BaseEnum.EqualsValue(Value(t), Some(v))) <==> 0 <= v <= 10
    ensures 0 <= v <= 10 ==> BaseEnum.EqualsValue(Value(Values[v]), Some(v))
  {
    ValuesInOrder();
    if 0 <= v <= 10 {
      assert BaseEnum.EqualsValue(Value(Values[v]), Some(v));
    }
  }
}
