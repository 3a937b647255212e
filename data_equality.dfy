/** GenericData.equals(Object) against another node. The comparison reads the other node only
    through isEmpty, getString, size, keySet and get, and never reads either node's mutability. */
module DataEquality {
  import opened JavaLang
  import opened DataNode
  import opened DataDefaults

  /** this.equals(d): an empty node equals exactly the empty nodes; an atomic node compares
      getString() with d.getString() (both are evaluated before a null receiver raises
      NullPointerException); otherwise the sizes must agree, a keyed node needs a keyed d and equal
      values key by key, and anything else is compared position by position. */
  function Equals(n: Node, d: Node): Result<bool>
    decreases Rank(n), n, 1, 0
  {
    if IsEmpty(n) then Ok(IsEmpty(d))
    else if IsAtomic(n) then
      match GetString(n)
      case Throw(e) => Throw(e)
      case Ok(mine) =>
        (match GetString(d)
         case Throw(e) => Throw(e)
         case Ok(theirs) => if mine.None? then Throw(NullPointer) else Ok(theirs == mine))
    else if Size(n) != Size(d) then Ok(false)
    else if KeySet(n) != {} then
      if KeySet(d) == {} then Ok(false) else EqualsKeys(n, d, 0)
    else
      KeysEmpty(n.content);
      EqualsSlots(n, d, 0)
  }

  /** The loop over keySet() from the i-th key on: get(key).equals(d.get(key)) for each key, in
      insertion order, stopping at the first difference. */
  function EqualsKeys(n: Node, d: Node, i: nat): Result<bool>
    requires n.valueType == ObjectType && i <= |n.content|
    decreases Rank(n), n, 0, |n.content| - i
  {
    if i == |n.content| then Ok(true)
    else
      match Equals(n.content[i].value, GetKey(d, n.content[i].key))
      case Throw(e) => Throw(e)
      case Ok(same) => if !same then Ok(false) else EqualsKeys(n, d, i + 1)
  }

  /** The loop over the positions from i on: get(i).equals(d.get(i)), where d.get(i) is evaluated
      before the comparison and may raise. */
  function EqualsSlots(n: Node, d: Node, i: nat): Result<bool>
    requires n.valueType == ArrayType && i <= |n.elements|
    decreases Rank(n), n, 0, |n.elements| - i
  {
    if i == |n.elements| then Ok(true)
    else
      match GetIndex(d, i)
      case Throw(e) => Throw(e)
      case Ok(theirs) =>
        (match Equals(At(n, i), theirs)
         case Throw(e) => Throw(e)
         case Ok(same) => if !same then Ok(false) else EqualsSlots(n, d, i + 1))
  }

  // ---------------------------------------------------------------------------------------------
  // Properties

  /** The key loop answers true exactly when every remaining key's value equals d's value under that
      key, and false exactly when some value differs before any comparison raises. */
  lemma {:induction false} EqualsKeysSpec(n: Node, d: Node, i: nat)
    requires n.valueType == ObjectType && i <= |n.content|
    ensures EqualsKeys(n, d, i) == Ok(true) <==>
              forall j :: i <= j < |n.content| ==> Equals(n.content[j].value, GetKey(d, n.content[j].key)) == Ok(true)
    decreases |n.content| - i
  {
    if i < |n.content| {
      EqualsKeysSpec(n, d, i + 1);
    }
  }

  /** The position loop answers true exactly when d.get(j) returns at every remaining position and
      each element equals it. */
  lemma {:induction false} EqualsSlotsSpec(n: Node, d: Node, i: nat)
    requires n.valueType == ArrayType && i <= |n.elements|
    ensures EqualsSlots(n, d, i) == Ok(true) <==>
              forall j :: i <= j < |n.elements| ==>
                GetIndex(d, j).Ok? && Equals(At(n, j), GetIndex(d, j).value) == Ok(true)
    decreases |n.elements| - i
  {
    if i < |n.elements| {
      EqualsSlotsSpec(n, d, i + 1);
    }
  }

  /** An empty node equals exactly the empty nodes, and atomic nodes are equal exactly when their
      getString() values are, provided both getString() calls return and this node's is not null. */
  lemma EqualsEmptyAndAtomic(n: Node, d: Node)
    ensures IsEmpty(n) ==> Equals(n, d) == Ok(IsEmpty(d))
    ensures !IsEmpty(n) && IsAtomic(n) && GetString(n).Ok? && GetString(n).value.Some? && GetString(d).Ok? ==>
              Equals(n, d) == Ok(GetString(n) == GetString(d))
    ensures !IsEmpty(n) && IsAtomic(n) && GetString(n) == Ok(None) && GetString(d).Ok? ==>
              Equals(n, d) == Throw(NullPointer)
  {
  }

  /** Keyed nodes are equal exactly when the sizes match, d is keyed, and each key's value equals d's
      value under that key. */
  lemma EqualsKeyed(n: Node, d: Node)
    requires !IsAtomic(n) && KeySet(n) != {}
    ensures Equals(n, d) == Ok(true) <==>
              && Size(n) == Size(d)
              && KeySet(d) != {}
              && forall j :: 0 <= j < |n.content| ==> Equals(n.content[j].value, GetKey(d, n.content[j].key)) == Ok(true)
  {
    IsObjectIffEntries(n);
    EqualsKeysSpec(n, d, 0);
  }

  /** Other non-empty, non-atomic nodes are arrays, equal to d exactly when the sizes match and each
      element equals d.get(j); d may be keyed, since only this node's keys are consulted. */
  lemma EqualsPositional(n: Node, d: Node)
    requires !IsEmpty(n) && !IsAtomic(n) && KeySet(n) == {}
    ensures n.valueType == ArrayType
    ensures Equals(n, d) == Ok(true) <==>
              && Size(n) == Size(d)
              && forall j :: 0 <= j < |n.elements| ==>
                   GetIndex(d, j).Ok? && Equals(At(n, j), GetIndex(d, j).value) == Ok(true)
  {
    KeysEmpty(n.content);
    EqualsSlotsSpec(n, d, 0);
  }

  /** equals never reads the mutability flag: changing it on either side changes nothing. */
  lemma {:induction false} EqualsIgnoresMutability(n: Node, d: Node, a: bool, b: bool)
    ensures Equals(n.(isMutable := a), d.(isMutable := b)) == Equals(n, d)
    decreases Rank(n), n, 1, 0
  {
    var n', d' := n.(isMutable := a), d.(isMutable := b);
    assert IsAtomic(n') == IsAtomic(n);
    if !IsEmpty(n) && !IsAtomic(n) && Size(n) == Size(d) {
      if KeySet(n) != {} {
        KeysIgnoreMutability(n, d, a, b, 0);
      } else {
        KeysEmpty(n.content);
        SlotsIgnoreMutability(n, d, a, b, 0);
      }
    }
  }

  lemma {:induction false} KeysIgnoreMutability(n: Node, d: Node, a: bool, b: bool, i: nat)
    requires n.valueType == ObjectType && i <= |n.content|
    ensures EqualsKeys(n.(isMutable := a), d.(isMutable := b), i) == EqualsKeys(n, d, i)
    decreases |n.content| - i
  {
    if i < |n.content| {
      KeysIgnoreMutability(n, d, a, b, i + 1);
    }
  }

  lemma {:induction false} SlotsIgnoreMutability(n: Node, d: Node, a: bool, b: bool, i: nat)
    requires n.valueType == ArrayType && i <= |n.elements|
    ensures EqualsSlots(n.(isMutable := a), d.(isMutable := b), i) == EqualsSlots(n, d, i)
    decreases Rank(n), n, 0, |n.elements| - i
  {
    if i < |n.elements| {
      var n', d' := n.(isMutable := a), d.(isMutable := b);
      assert At(n', i) == At(n, i);
      if GetIndex(d, i).Ok? {
        if IsScalarType(d.valueType) && i == 0 {
          assert GetIndex(d', i) == Ok(d');
          EqualsIgnoresMutability(At(n, i), d, At(n, i).isMutable, b);
          assert At(n, i).(isMutable := At(n, i).isMutable) == At(n, i);
        } else {
          assert GetIndex(d', i) == GetIndex(d, i);
        }
      }
      SlotsIgnoreMutability(n, d, a, b, i + 1);
    }
  }

  /** An atomic string node whose string is null does not equal itself: getString() answers null
      and calling equals on it raises NullPointerException. */
  lemma NullStringNotReflexive()
    ensures var n := NULL.(valueType := StringType, stringValue := None, isMutable := true);
              Equals(n, n) == Throw(NullPointer)
  {
  }

  /** equals is not symmetric: an array [1, 2] equals an object {"x": 1, "y": 2}, because only the
      receiver's keys are consulted and the object answers get(i) by position, while the object does
      not equal the array. */
  lemma EqualsNotSymmetric()
    ensures var one := FRESH.(valueType := IntegralType, integralValue := 1);
            var two := FRESH.(valueType := IntegralType, integralValue := 2);
            var arr := FRESH.(valueType := ArrayType, elements := [Some(one), Some(two)]);
            var obj := FRESH.(valueType := ObjectType, content := [Entry("x", one), Entry("y", two)]);
              Equals(arr, obj) == Ok(true) && Equals(obj, arr) == Ok(false)
  {
    var one := FRESH.(valueType := IntegralType, integralValue := 1);
    var two := FRESH.(valueType := IntegralType, integralValue := 2);
    var arr := FRESH.(valueType := ArrayType, elements := [Some(one), Some(two)]);
    var obj := FRESH.(valueType := ObjectType, content := [Entry("x", one), Entry("y", two)]);
    assert "x" in KeySet(obj) by {
      assert Entry("x", one) in obj.content;
    }
    assert Equals(one, one) == Ok(true);
    assert Equals(two, two) == Ok(true);
    assert EqualsSlots(arr, obj, 1) == Ok(true);
  }
}
