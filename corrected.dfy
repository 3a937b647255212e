/** What GenericData evidently means to do where the code does something else: the bounds test of
    get(int), the setters checking mutability before their clear(), ensureCapacity keeping the
    grown array, the promotion of a node to an array keeping its old value, isBoolean recognising
    only boolean text, set(Data, mutable) applying the mutability to an empty copy too, and equals
    comparing null strings without raising. Each definition is its counterpart in DataNode,
    DataWrite or DataEquality with the fixes its section names; one that calls another corrected
    definition inherits that one's fix as well. */
module Corrected {
  import opened JavaLang
  import opened DataNode
  import opened DataDefaults
  import DataWrite
  import DataEquality

  // ---------------------------------------------------------------------------------------------
  // get(int) with the bounds test index < 0 || index >= array.length

  function GetIndex(n: Node, index: int): Result<Node>
  {
    match n.valueType
    case ArrayType =>
      if index < 0 || index >= |n.elements| then Ok(NULL)
      else Ok(if n.elements[index].None? then NULL else n.elements[index].value)
    case _ => DataNode.GetIndex(n, index)
  }

  /** get(index) never raises: outside an array's bounds it answers NULL like every other kind, and
      inside them it agrees with the code as written. */
  lemma GetIndexNeverRaises(n: Node, index: int)
    ensures GetIndex(n, index).Ok?
    ensures n.valueType == ArrayType && !(0 <= index < |n.elements|) ==> GetIndex(n, index) == Ok(NULL)
    ensures DataNode.GetIndex(n, index).Ok? ==> GetIndex(n, index) == DataNode.GetIndex(n, index)
  {
  }

  // ---------------------------------------------------------------------------------------------
  // Setters that call checkMutable() before clear()

  /** setBoolean(value) and its siblings with checkMutable() ahead of clear(), which itself keeps
      its early return on an empty node (DataWrite.Clear). */
  function SetValue(n: Node, x: DataWrite.Scalar): DataWrite.Step
  {
    if !n.isMutable then DataWrite.Step(n, DataWrite.Raised(IllegalState)) else DataWrite.SetValue(n, x)
  }

  // ---------------------------------------------------------------------------------------------
  // ensureCapacity that stores the grown array

  /** array = a copy grown to `capacity` slots, the new ones filled with NULL. */
  function EnsureCapacity(es: seq<Option<Node>>, capacity: int): seq<Option<Node>>
  {
    if |es| < capacity then es + seq(capacity - |es|, _ => Some(NULL)) else es
  }

  /** new GenericData(value, mutable) over the corrected set(Data, mutable). */
  function Copy(fp: FloatOps, src: Node, mutable: bool): DataWrite.Step
  {
    CopyInto(fp, FRESH, src, mutable)
  }

  /** The stored child of an indexed setter: new GenericData().setX(value), or the corrected copy
      new GenericData(value). */
  function Materialize(fp: FloatOps, arg: DataWrite.Arg): Result<Node>
  {
    match arg
    case ScalarArg(x) => Ok(DataWrite.NewScalar(x))
    case DataArg(d) =>
      var c := Copy(fp, d, true);
      if c.outcome.Raised? then Throw(c.outcome.error) else Ok(c.state)
  }

  /** The index-0 branch of an indexed setter: the guarded setX(value), or the corrected
      set(value), which copies with the node's own mutability. */
  function Assign(fp: FloatOps, n: Node, arg: DataWrite.Arg): DataWrite.Step
  {
    match arg
    case ScalarArg(x) => SetValue(n, x)
    case DataArg(d) => CopyInto(fp, n, d, n.isMutable)
  }

  /** The array case of an indexed setter with the grown array kept: ensureCapacity(index + 1), with
      Java's int overflow, then the child, then the store. */
  function WriteSlot(fp: FloatOps, n: Node, index: Int, arg: DataWrite.Arg): DataWrite.Step
  {
    var grown := n.(elements := EnsureCapacity(n.elements, ToInt(index + 1)));
    match Materialize(fp, arg)
    case Throw(e) => DataWrite.Step(grown, DataWrite.Raised(e))
    case Ok(child) =>
      if 0 <= index < |grown.elements| then
        DataWrite.Step(grown.(elements := grown.elements[index := Some(child)]), DataWrite.Returned)
      else DataWrite.Step(grown, DataWrite.Raised(ArrayIndexOutOfBounds))
  }

  /** With the grown array kept, a write at any index from 0 up to Integer.MAX_VALUE - 1 succeeds:
      the array grows to index + 1 slots when it is shorter, the gap reads NULL, the other slots keep
      their contents, and get(index) answers the new child. */
  lemma WriteSlotStores(fp: FloatOps, n: Node, index: Int, arg: DataWrite.Arg)
    requires n.valueType == ArrayType && 0 <= index < INT_MAX
    requires Materialize(fp, arg).Ok?
    ensures var r := WriteSlot(fp, n, index, arg);
            var child := Materialize(fp, arg).value;
              && r.outcome == DataWrite.Returned
              && r.state.valueType == ArrayType
              && |r.state.elements| == (if index < |n.elements| then |n.elements| else index + 1)
              && DataNode.GetIndex(r.state, index) == Ok(child)
              && (forall j :: 0 <= j < |n.elements| && j != index ==> r.state.elements[j] == n.elements[j])
              && (forall j :: |n.elements| <= j < index ==> DataNode.GetIndex(r.state, j) == Ok(NULL))
  {
  }

  // ---------------------------------------------------------------------------------------------
  // The promotion to an array, keeping the old value

  /** An indexed setter whose promotion copies the node before retagging it: a null node starts from
      an empty array, a scalar or an object from a one-slot array holding its copy, and the store
      then grows the array as WriteSlot does. Every copy it takes, of the old node, of a stored
      child or at index 0, is the corrected one, so the isBoolean and mutability fixes apply too. */
  function SetIndexed(fp: FloatOps, n: Node, index: Int, arg: DataWrite.Arg): DataWrite.Step
  {
    if !n.isMutable then DataWrite.Step(n, DataWrite.Raised(IllegalState))
    else if n.valueType == ArrayType then WriteSlot(fp, n, index, arg)
    else if n.valueType != NullType && index == 0 then Assign(fp, n, arg)
    else if index < 0 then DataWrite.Step(n, DataWrite.Raised(NegativeArraySize))
    else if n.valueType == NullType then WriteSlot(fp, n.(valueType := ArrayType, elements := []), index, arg)
    else
      var data := Copy(fp, n, true);
      if data.outcome.Raised? then DataWrite.Step(n, data.outcome)
      else WriteSlot(fp, n.(valueType := ArrayType, elements := [Some(data.state)]), index, arg)
  }

  /** With that promotion, an indexed set on a mutable null or scalar node succeeds at every index
      from 0 up to Integer.MAX_VALUE - 1: get(index) answers the new child, and slot 0 holds
      new GenericData(old node), taken before the retag, where an integer and a boolean read as
      themselves and a string that is neither a number nor boolean text keeps its text. */
  lemma PromotionKeepsValue(fp: FloatOps, n: Node, index: Int, arg: DataWrite.Arg)
    requires n.isMutable && 0 <= index < INT_MAX && Materialize(fp, arg).Ok?
    requires n.valueType == NullType || (IsScalarType(n.valueType) && index > 0)
    ensures var r := SetIndexed(fp, n, index, arg);
              && r.outcome == DataWrite.Returned
              && r.state.valueType == ArrayType
              && DataNode.GetIndex(r.state, index) == Ok(Materialize(fp, arg).value)
              && (n.valueType == NullType ==> Size(r.state) == index + 1)
              && (n.valueType != NullType ==>
                    && Size(r.state) == index + 1
                    && r.state.elements[0] == Some(Copy(fp, n, true).state))
              && (n.valueType == IntegralType ==> GetLong(At(r.state, 0)) == Ok(n.integralValue))
              && (n.valueType == BooleanType ==> GetBoolean(At(r.state, 0)) == Ok(n.booleanValue))
              && (n.valueType == StringType && n.stringValue.Some? && ParseLong(n.stringValue).Throw? &&
                  fp.parseDouble(n.stringValue.value).None? && !IsBooleanText(n.stringValue.value) ==>
                    GetString(At(r.state, 0)) == Ok(n.stringValue))
  {
  }

  // ---------------------------------------------------------------------------------------------
  // isBoolean that recognises boolean text, and set(Data, mutable) that always applies mutability

  predicate IsBooleanText(s: string)
  {
    LowerAscii(s) == "true" || LowerAscii(s) == "false"
  }

  /** isBoolean() true of a string only when it spells true or false, in any case. */
  predicate IsBoolean(n: Node)
    decreases Rank(n), n
  {
    match n.valueType
    case BooleanType => true
    case StringType => n.stringValue.Some? && IsBooleanText(n.stringValue.value)
    case ObjectType => Size(n) == 1 && IsBoolean(At(n, 0))
    case ArrayType => Size(n) == 1 && IsBoolean(At(n, 0))
    case _ => false
  }

  /** set(value, mutable) with checkMutable() ahead of clear(), isMutable = mutable assigned on
      every path that returns, and the scalar kind chosen with the corrected isBoolean. */
  function CopyInto(fp: FloatOps, n: Node, src: Node, mutable: bool): DataWrite.Step
    decreases Rank(src), src, 1, 0
  {
    var c := DataWrite.Clear(n);
    if !n.isMutable then DataWrite.Step(n, DataWrite.Raised(IllegalState))
    else if c.outcome.Raised? then c
    else
      var s :=
        if IsNull(src) then c
        else if KeySet(src) != {} then CopyEntries(fp, c.state, src, mutable, 0)
        else if Size(src) > 1 then
          KeysEmpty(src.content);
          FillSlots(fp, c.state.(valueType := ArrayType, elements := seq(Size(src), _ => None)), src, mutable, 0)
        else CopyScalar(fp, c.state, src);
      if s.outcome.Raised? then s else DataWrite.Step(s.state.(isMutable := mutable), DataWrite.Returned)
  }

  function CopyEntries(fp: FloatOps, n: Node, src: Node, mutable: bool, i: nat): DataWrite.Step
    requires src.valueType == ObjectType && i <= |src.content|
    decreases Rank(src), src, 0, |src.content| - i
  {
    if i == |src.content| then DataWrite.Step(n, DataWrite.Returned)
    else
      var child := CopyInto(fp, FRESH, src.content[i].value, mutable);
      if child.outcome.Raised? then DataWrite.Step(n, child.outcome)
      else
        var s := DataWrite.SetKeyed(n, src.content[i].key, child.state);
        if s.outcome.Raised? then s else CopyEntries(fp, s.state, src, mutable, i + 1)
  }

  function FillSlots(fp: FloatOps, n: Node, src: Node, mutable: bool, i: nat): DataWrite.Step
    requires src.valueType == ArrayType && |n.elements| == |src.elements| && i <= |n.elements|
    decreases Rank(src), src, 0, |src.elements| - i
  {
    if i == |n.elements| then DataWrite.Step(n, DataWrite.Returned)
    else
      var child := CopyInto(fp, FRESH, At(src, i), mutable);
      if child.outcome.Raised? then DataWrite.Step(n, child.outcome)
      else FillSlots(fp, n.(elements := n.elements[i := Some(child.state)]), src, mutable, i + 1)
  }

  function CopyScalar(fp: FloatOps, n: Node, src: Node): DataWrite.Step
  {
    if IsIntegral(src) then
      var m := n.(valueType := IntegralType);
      match GetLong(src)
      case Ok(v) => DataWrite.Step(m.(integralValue := v), DataWrite.Returned)
      case Throw(e) => DataWrite.Step(m, DataWrite.Raised(e))
    else if IsNumeric(fp, src) then
      var m := n.(valueType := NumericType);
      match GetDouble(fp, src)
      case Ok(d) => DataWrite.Step(m.(numericValue := d), DataWrite.Returned)
      case Throw(e) => DataWrite.Step(m, DataWrite.Raised(e))
    else if IsBoolean(src) then
      var m := n.(valueType := BooleanType);
      match GetBoolean(src)
      case Ok(b) => DataWrite.Step(m.(booleanValue := b), DataWrite.Returned)
      case Throw(e) => DataWrite.Step(m, DataWrite.Raised(e))
    else
      var m := n.(valueType := StringType);
      match GetString(src)
      case Ok(s) => DataWrite.Step(m.(stringValue := s), DataWrite.Returned)
      case Throw(e) => DataWrite.Step(m, DataWrite.Raised(e))
  }

  /** The corrected isBoolean holds of a string exactly when it spells true or false, and still
      promises that getBoolean returns. */
  lemma IsBooleanMeansBooleanText(n: Node, s: Option<string>)
    ensures IsBoolean(NULL.(valueType := StringType, stringValue := s)) <==> s.Some? && IsBooleanText(s.value)
    ensures IsBoolean(n) ==> DataNode.IsBoolean(n) && GetBoolean(n).Ok?
    decreases Rank(n), n
  {
    if IsComposite(n) && Size(n) == 1 {
      IsBooleanMeansBooleanText(At(n, 0), s);
      FirstElement(n);
    }
  }

  /** Into a mutable node, a copy of a string that is not integral, not numeric and not boolean
      text keeps its text and its string kind, and a boolean text becomes the boolean it spells; an
      immutable node raises IllegalStateException and stays as it is. */
  lemma CopyKeepsText(fp: FloatOps, n: Node, s: string, mutable: bool)
    requires ParseLong(Some(s)).Throw? && fp.parseDouble(s).None?
    ensures var r := CopyInto(fp, n, NULL.(valueType := StringType, stringValue := Some(s)), mutable);
              && (r.outcome == DataWrite.Returned <==> n.isMutable)
              && (!n.isMutable ==> r == DataWrite.Step(n, DataWrite.Raised(IllegalState)))
              && (n.isMutable && !IsBooleanText(s) ==> r.state.valueType == StringType && GetString(r.state) == Ok(Some(s)))
              && (n.isMutable && IsBooleanText(s) ==> r.state.valueType == BooleanType && GetBoolean(r.state) == Ok(LowerAscii(s) == "true"))
  {
    ParseBooleanIsLowerCaseTrue(s);
  }

  /** A completed corrected copy always has the requested mutability, an empty source included. */
  lemma CopyAppliesMutability(fp: FloatOps, n: Node, src: Node, mutable: bool)
    requires CopyInto(fp, n, src, mutable).outcome == DataWrite.Returned
    ensures CopyInto(fp, n, src, mutable).state.isMutable == mutable
    ensures IsEmpty(src) ==> IsEmpty(CopyInto(fp, n, src, mutable).state)
  {
  }

  // ---------------------------------------------------------------------------------------------
  // equals comparing the strings as Objects.equals does

  function Equals(n: Node, d: Node): Result<bool>
    decreases Rank(n), n, 1, 0
  {
    if IsEmpty(n) then Ok(IsEmpty(d))
    else if IsAtomic(n) then
      match GetString(n)
      case Throw(e) => Throw(e)
      case Ok(mine) =>
        (match GetString(d)
         case Throw(e) => Throw(e)
         case Ok(theirs) => Ok(theirs == mine))
    else if Size(n) != Size(d) then Ok(false)
    else if KeySet(n) != {} then
      if KeySet(d) == {} then Ok(false) else EqualsKeys(n, d, 0)
    else
      KeysEmpty(n.content);
      EqualsSlots(n, d, 0)
  }

  function EqualsKeys(n: Node, d: Node, i: nat): Result<bool>
    requires n.valueType == ObjectType && i <= |n.content|
    decreases Rank(n), n, 0, |n.content| - i
  {
    if i == |n.content| then Ok(true)
    else
      match Equals(n.content[i].value, GetKey(d, n.content[i].key))
      case Throw(e) => Throw(e)
      case Ok(same) => if !same then Ok(false) else EqualsKeys(n, d, i + 1)
  }

  function EqualsSlots(n: Node, d: Node, i: nat): Result<bool>
    requires n.valueType == ArrayType && i <= |n.elements|
    decreases Rank(n), n, 0, |n.elements| - i
  {
    if i == |n.elements| then Ok(true)
    else
      match GetIndex(d, i)
      case Throw(e) => Throw(e)
      case Ok(theirs) =>
        (match Equals(At(n, i), theirs)
         case Throw(e) => Throw(e)
         case Ok(same) => if !same then Ok(false) else EqualsSlots(n, d, i + 1))
  }

  /** The corrected equals is reflexive on every well-formed node, null strings included. */
  lemma {:induction false} EqualsReflexive(n: Node)
    requires WellFormed(n)
    ensures Equals(n, n) == Ok(true)
    decreases Rank(n), n, 1, 0
  {
    if !IsEmpty(n) {
      if IsAtomic(n) {
        ProbesGuardGetters(FloatOps(_ => None, _ => ZERO), n);
      } else if KeySet(n) != {} {
        EqualsKeysReflexive(n, 0);
      } else {
        KeysEmpty(n.content);
        EqualsSlotsReflexive(n, 0);
      }
    }
  }

  lemma {:induction false} EqualsKeysReflexive(n: Node, i: nat)
    requires WellFormed(n) && n.valueType == ObjectType && i <= |n.content|
    ensures EqualsKeys(n, n, i) == Ok(true)
    decreases Rank(n), n, 0, |n.content| - i
  {
    if i < |n.content| {
      LookupFinds(n.content, i);
      EqualsReflexive(n.content[i].value);
      EqualsKeysReflexive(n, i + 1);
    }
  }

  lemma {:induction false} EqualsSlotsReflexive(n: Node, i: nat)
    requires WellFormed(n) && n.valueType == ArrayType && i <= |n.elements|
    ensures EqualsSlots(n, n, i) == Ok(true)
    decreases Rank(n), n, 0, |n.elements| - i
  {
    if i < |n.elements| {
      assert WellFormed(At(n, i));
      EqualsReflexive(At(n, i));
      EqualsSlotsReflexive(n, i + 1);
    }
  }

  // ---------------------------------------------------------------------------------------------
  // The sentinel NULL

  /** With checkMutable() ahead of clear() in every setter, no setter changes the shared sentinel
      NULL: the whole-value, keyed, indexed and copying setters all raise IllegalStateException and
      leave it as it is, so it stays empty and immutable. Every immutable node is protected the same
      way, clear() on an empty node still returns, and on a mutable node the whole-value setters
      agree with the code. */
  lemma SentinelRejectsSetters(fp: FloatOps, n: Node, x: DataWrite.Scalar, property: string, value: Node,
                               index: Int, arg: DataWrite.Arg, src: Node, mutable: bool)
    ensures SetValue(NULL, x) == DataWrite.Step(NULL, DataWrite.Raised(IllegalState))
    ensures DataWrite.SetKeyed(NULL, property, value) == DataWrite.Step(NULL, DataWrite.Raised(IllegalState))
    ensures SetIndexed(fp, NULL, index, arg) == DataWrite.Step(NULL, DataWrite.Raised(IllegalState))
    ensures CopyInto(fp, NULL, src, mutable) == DataWrite.Step(NULL, DataWrite.Raised(IllegalState))
    ensures DataWrite.Clear(NULL) == DataWrite.Step(NULL, DataWrite.Returned)
    ensures !n.isMutable ==>
              && SetValue(n, x) == DataWrite.Step(n, DataWrite.Raised(IllegalState))
              && CopyInto(fp, n, src, mutable) == DataWrite.Step(n, DataWrite.Raised(IllegalState))
    ensures n.isMutable ==> SetValue(n, x) == DataWrite.SetValue(n, x)
  {
  }
}
