/** The GenericData object itself: the fields of GenericData.java:47-55, updated in place by its
    methods. Each method is proved against the function of DataWrite or DataEquality that states
    what it does to the node's value. Child nodes are held by value. */
module GenericDataObject {
  import opened JavaLang
  import opened DataNode
  import opened DataDefaults
  import DataWrite
  import DataEquality

  class GenericData {
    var valueType: ValueType
    var booleanValue: bool
    var stringValue: Option<string>
    var integralValue: Long
    var numericValue: Double
    var content: seq<Entry>
    var elements: array?<Option<Node>>
    var isMutable: bool

    /** An array node always has its array. */
    ghost predicate Valid()
      reads this
    {
      valueType == ArrayType ==> elements != null
    }

    /** The node this object holds; a null array field reads as no elements. */
    function Value(): Node
      reads this, elements
    {
      Node(valueType, booleanValue, stringValue, integralValue, numericValue, content,
           if elements == null then [] else elements[..], isMutable)
    }

    /** new GenericData(): empty and mutable. */
    constructor ()
      ensures Valid() && elements == null && Value() == FRESH
    {
      valueType := NullType;
      booleanValue := false;
      stringValue := None;
      integralValue := 0;
      numericValue := ZERO;
      content := [];
      elements := null;
      isMutable := true;
    }

    /** new GenericData(mutable): empty, with the given mutability. */
    constructor WithMutability(mutable: bool)
      ensures Valid() && elements == null && Value() == NULL.(isMutable := mutable)
    {
      valueType := NullType;
      booleanValue := false;
      stringValue := None;
      integralValue := 0;
      numericValue := ZERO;
      content := [];
      elements := null;
      isMutable := mutable;
    }

    method CheckMutable() returns (outcome: DataWrite.Outcome)
      ensures outcome == DataWrite.CheckMutable(Value())
      ensures outcome.Raised? <==> !isMutable
    {
      outcome := if isMutable then DataWrite.Returned else DataWrite.Raised(IllegalState);
    }

    method Clear() returns (outcome: DataWrite.Outcome)
      requires Valid()
      modifies this
      ensures Valid() && (elements == old(elements) || elements == null)
      ensures DataWrite.Step(Value(), outcome) == DataWrite.Clear(old(Value()))
    {
      if IsEmpty(Value()) {
        return DataWrite.Returned;
      }
      outcome := CheckMutable();
      if outcome.Raised? {
        return;
      }
      valueType := NullType;
      content := [];
      elements := null;
    }

    /** setBoolean(value), setString(value), setLong(value) and the narrower integer setters. */
    method SetValue(x: DataWrite.Scalar) returns (outcome: DataWrite.Outcome)
      requires Valid()
      modifies this
      ensures Valid() && (elements == old(elements) || elements == null)
      ensures DataWrite.Step(Value(), outcome) == DataWrite.SetValue(old(Value()), x)
    {
      outcome := Clear();
      if outcome.Raised? {
        return;
      }
      match x
      case BoolValue(b) =>
        valueType := BooleanType;
        booleanValue := b;
      case StringValue(s) =>
        valueType := StringType;
        stringValue := s;
      case LongValue(v) =>
        valueType := IntegralType;
        integralValue := v;
    }

    /** set(property, value). On an array the call goes to get(0), a child held by value here. */
    method SetKey(property: string, value: Node) returns (outcome: DataWrite.Outcome)
      requires Valid()
      modifies this, elements
      ensures Valid() && (elements == old(elements) || elements == null)
      ensures DataWrite.Step(Value(), outcome) == DataWrite.SetKeyed(old(Value()), property, value)
    {
      outcome := CheckMutable();
      if outcome.Raised? {
        return;
      }
      match valueType
      case NullType =>
        valueType := ObjectType;
        content := DataWrite.Put(content, property, value);
      case ObjectType =>
        content := DataWrite.Put(content, property, value);
      case ArrayType =>
        if elements.Length == 0 {
          outcome := DataWrite.Raised(ArrayIndexOutOfBounds);
        } else if elements[0].None? {
          outcome := DataWrite.SetKeyed(NULL, property, value).outcome;
        } else {
          var child := DataWrite.SetKeyed(elements[0].value, property, value);
          elements[0] := Some(child.state);
          outcome := child.outcome;
        }
      case _ =>
        var cleared := Clear();
        valueType := ObjectType;
        content := DataWrite.Put(content, property, value);
    }

    /** setBoolean(property, value) and its siblings: the stored child is new GenericData().setX(value). */
    method SetKeyValue(property: string, x: DataWrite.Scalar) returns (outcome: DataWrite.Outcome)
      requires Valid()
      modifies this, elements
      ensures Valid()
      ensures DataWrite.Step(Value(), outcome) ==
                DataWrite.SetKeyed(old(Value()), property, DataWrite.NewScalar(x))
    {
      var child := new GenericData();
      var stored := child.SetValue(x);
      outcome := SetKey(property, child.Value());
    }

    /** set(value, mutable): the deep copy. */
    method Set(fp: FloatOps, value: Node, mutable: bool) returns (outcome: DataWrite.Outcome)
      requires Valid()
      modifies this, elements
      ensures Valid()
      ensures DataWrite.Step(Value(), outcome) == DataWrite.CopyInto(fp, old(Value()), value, mutable)
      decreases Rank(value), value, 1
    {
      outcome := Clear();
      if outcome.Raised? || IsEmpty(value) {
        return;
      }
      if KeySet(value) != {} {
        outcome := CopyKeys(fp, value, mutable);
      } else if Size(value) > 1 {
        KeysEmpty(value.content);
        outcome := CopySlots(fp, value, mutable);
      } else {
        outcome := CopyScalarFrom(fp, value);
      }
      if outcome.Returned? {
        isMutable := mutable;
      }
    }

    /** set(value): the deep copy with the node's own mutability. */
    method SetData(fp: FloatOps, value: Node) returns (outcome: DataWrite.Outcome)
      requires Valid()
      modifies this, elements
      ensures Valid()
      ensures DataWrite.Step(Value(), outcome) == DataWrite.CopyInto(fp, old(Value()), value, old(isMutable))
    {
      outcome := Set(fp, value, isMutable);
    }

    /** The loop for (String key : value.keySet()) set(key, new GenericData(value.get(key), mutable)). */
    method CopyKeys(fp: FloatOps, value: Node, mutable: bool) returns (outcome: DataWrite.Outcome)
      requires Valid() && value.valueType == ObjectType
      modifies this, elements
      ensures Valid() && (elements == old(elements) || elements == null)
      ensures DataWrite.Step(Value(), outcome) == DataWrite.CopyEntries(fp, old(Value()), value, mutable, 0)
      decreases Rank(value), value, 0
    {
      var i := 0;
      while i < |value.content|
        invariant 0 <= i <= |value.content|
        invariant Valid() && (elements == old(elements) || elements == null)
        invariant DataWrite.CopyEntries(fp, Value(), value, mutable, i) ==
                  DataWrite.CopyEntries(fp, old(Value()), value, mutable, 0)
      {
        var child := new GenericData();
        var copied := child.Set(fp, value.content[i].value, mutable);
        if copied.Raised? {
          return copied;
        }
        var stored := SetKey(value.content[i].key, child.Value());
        if stored.Raised? {
          return stored;
        }
        i := i + 1;
      }
      return DataWrite.Returned;
    }

    /** array = new Data[value.size()], then the loop array[i] = new GenericData(value.get(i), mutable). */
    method CopySlots(fp: FloatOps, value: Node, mutable: bool) returns (outcome: DataWrite.Outcome)
      requires value.valueType == ArrayType
      modifies this
      ensures Valid()
      ensures DataWrite.Step(Value(), outcome) ==
                DataWrite.FillSlots(fp, old(Value()).(valueType := ArrayType, elements := seq(|value.elements|, _ => None)),
                                    value, mutable, 0)
      decreases Rank(value), value, 0
    {
      valueType := ArrayType;
      elements := new Option<Node>[|value.elements|](_ => None);
      assert elements[..] == seq(|value.elements|, _ => None);
      var i := 0;
      while i < elements.Length
        invariant elements != null && fresh(elements) && valueType == ArrayType
        invariant 0 <= i <= elements.Length == |value.elements|
        invariant DataWrite.FillSlots(fp, Value(), value, mutable, i) ==
                  DataWrite.FillSlots(fp, old(Value()).(valueType := ArrayType, elements := seq(|value.elements|, _ => None)),
                                      value, mutable, 0)
      {
        var child := new GenericData();
        var copied := child.Set(fp, At(value, i), mutable);
        if copied.Raised? {
          return copied;
        }
        elements[i] := Some(child.Value());
        i := i + 1;
      }
      return DataWrite.Returned;
    }

    /** The scalar branch of the copy: integral, else numeric, else boolean, else string; the tag is
        assigned before the getter runs. */
    method CopyScalarFrom(fp: FloatOps, value: Node) returns (outcome: DataWrite.Outcome)
      requires Valid()
      modifies this
      ensures Valid() && elements == old(elements)
      ensures DataWrite.Step(Value(), outcome) == DataWrite.CopyScalar(fp, old(Value()), value)
    {
      outcome := DataWrite.Returned;
      if IsIntegral(value) {
        valueType := IntegralType;
        var r := GetLong(value);
        if r.Throw? {
          return DataWrite.Raised(r.error);
        }
        integralValue := r.value;
      } else if IsNumeric(fp, value) {
        valueType := NumericType;
        var r := GetDouble(fp, value);
        if r.Throw? {
          return DataWrite.Raised(r.error);
        }
        numericValue := r.value;
      } else if IsBoolean(value) {
        valueType := BooleanType;
        var r := GetBoolean(value);
        if r.Throw? {
          return DataWrite.Raised(r.error);
        }
        booleanValue := r.value;
      } else {
        valueType := StringType;
        var r := GetString(value);
        if r.Throw? {
          return DataWrite.Raised(r.error);
        }
        stringValue := r.value;
      }
    }

    /** ensureCapacity(capacity): the grown, NULL-filled copy is built and then dropped, so the node
        keeps its elements and its contents. */
    method EnsureCapacity(capacity: Int)
      requires elements != null
      ensures elements == old(elements) && elements[..] == old(elements[..])
    {
      if elements.Length < capacity {
        var newArray := new Option<Node>[capacity](_ => Some(NULL));
        forall i | 0 <= i < elements.Length {
          newArray[i] := elements[i];
        }
      }
    }

    /** The array case of an indexed setter: ensureCapacity(index + 1), with Java's int overflow, then
        elements[index] = child, where the child is built before the bounds check. */
    method WriteSlot(fp: FloatOps, index: Int, arg: DataWrite.Arg) returns (outcome: DataWrite.Outcome)
      requires Valid() && elements != null
      modifies elements
      ensures DataWrite.Step(Value(), outcome) == DataWrite.WriteSlot(fp, old(Value()), index, arg)
    {
      EnsureCapacity(ToInt(index + 1));
      var child := new GenericData();
      match arg {
        case ScalarArg(x) =>
          var stored := child.SetValue(x);
        case DataArg(d) =>
          var copied := child.Set(fp, d, true);
          if copied.Raised? {
            return copied;
          }
      }
      if 0 <= index < elements.Length {
        elements[index] := Some(child.Value());
        outcome := DataWrite.Returned;
      } else {
        outcome := DataWrite.Raised(ArrayIndexOutOfBounds);
      }
    }

    /** set(index, value) and setX(index, value), with the promotion of a null, scalar or object
        node to an array of `index` slots whose slot 0 receives new GenericData(this). */
    method SetIndex(fp: FloatOps, index: Int, arg: DataWrite.Arg) returns (outcome: DataWrite.Outcome)
      requires Valid()
      modifies this, elements
      ensures Valid()
      ensures DataWrite.Step(Value(), outcome) == DataWrite.SetIndexed(fp, old(Value()), index, arg)
    {
      outcome := CheckMutable();
      if outcome.Raised? {
        return;
      }
      if valueType == ArrayType {
        outcome := WriteSlot(fp, index, arg);
        return;
      }
      if valueType != NullType && index == 0 {
        match arg {
          case ScalarArg(x) =>
            outcome := SetValue(x);
          case DataArg(d) =>
            outcome := Set(fp, d, isMutable);
        }
        return;
      }
      if index < 0 {
        return DataWrite.Raised(NegativeArraySize);
      }
      elements := new Option<Node>[index](_ => None);
      valueType := ArrayType;
      assert elements[..] == seq(index, _ => None);
      var data := new GenericData();
      var copied := data.Set(fp, Value(), true);
      if copied.Raised? {
        return copied;
      }
      if elements.Length == 0 {
        return DataWrite.Raised(ArrayIndexOutOfBounds);
      }
      elements[0] := Some(data.Value());
      outcome := WriteSlot(fp, index, arg);
    }

    /** equals(d), with its loops over this node's keys and positions. */
    method EqualTo(d: Node) returns (r: Result<bool>)
      ensures r == DataEquality.Equals(Value(), d)
    {
      var n := Value();
      if IsEmpty(n) {
        return Ok(IsEmpty(d));
      }
      if IsAtomic(n) {
        var mine := GetString(n);
        if mine.Throw? {
          return Throw(mine.error);
        }
        var theirs := GetString(d);
        if theirs.Throw? {
          return Throw(theirs.error);
        }
        if mine.value.None? {
          return Throw(NullPointer);
        }
        return Ok(theirs.value == mine.value);
      }
      if Size(n) != Size(d) {
        return Ok(false);
      }
      if KeySet(n) != {} {
        if KeySet(d) == {} {
          return Ok(false);
        }
        var i := 0;
        while i < |content|
          invariant 0 <= i <= |content|
          invariant DataEquality.EqualsKeys(n, d, i) == DataEquality.EqualsKeys(n, d, 0)
        {
          var same := DataEquality.Equals(content[i].value, GetKey(d, content[i].key));
          if same.Throw? || !same.value {
            return same;
          }
          i := i + 1;
        }
        return Ok(true);
      }
      KeysEmpty(n.content);
      var i := 0;
      while i < elements.Length
        invariant 0 <= i <= elements.Length
        invariant DataEquality.EqualsSlots(n, d, i) == DataEquality.EqualsSlots(n, d, 0)
      {
        var theirs := GetIndex(d, i);
        if theirs.Throw? {
          return Throw(theirs.error);
        }
        var same := DataEquality.Equals(At(n, i), theirs.value);
        if same.Throw? || !same.value {
          return same;
        }
        i := i + 1;
      }
      return Ok(true);
    }
  }
}
