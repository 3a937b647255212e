/** The mutators of GenericData as functions from the old node to the new one: clear(), the
    whole-value setters, the keyed setters set(String, ...), the indexed setters set(int, ...) and the
    deep copy set(Data, mutable). A Java exception is an outcome that travels with the state the node
    has reached when it is thrown. */
module DataWrite {
  import opened JavaLang
  import opened DataNode
  import opened DataDefaults

  datatype Outcome = Returned | Raised(error: Exception)

  /** The node after a call, and how the call ended. */
  datatype Step = Step(state: Node, outcome: Outcome)

  /** The argument of a whole-value setter: setBoolean, setString, and setLong; setInt, setShort and
      setByte store their argument widened to long, so they are LongValue too. */
  datatype Scalar = BoolValue(b: bool) | StringValue(s: Option<string>) | LongValue(v: Long)

  /** The right-hand side of an indexed setter: a scalar for setBoolean(int, ...) and its siblings,
      a Data for set(int, Data). */
  datatype Arg = ScalarArg(x: Scalar) | DataArg(d: Node)

  /** checkMutable(). */
  function CheckMutable(n: Node): Outcome
  {
    if n.isMutable then Returned else Raised(IllegalState)
  }

  /** clear(): nothing to do on an empty node, whatever its mutability; otherwise the guard, then
      the tag, the map and the array are reset. The scalar payload fields keep their old values. */
  function Clear(n: Node): Step
  {
    if IsNull(n) then Step(n, Returned)
    else if CheckMutable(n).Raised? then Step(n, CheckMutable(n))
    else Step(n.(valueType := NullType, content := [], elements := []), Returned)
  }

  /** The two assignments a whole-value setter makes after clear(). */
  function Store(n: Node, x: Scalar): Node
  {
    match x
    case BoolValue(b) => n.(valueType := BooleanType, booleanValue := b)
    case StringValue(s) => n.(valueType := StringType, stringValue := s)
    case LongValue(v) => n.(valueType := IntegralType, integralValue := v)
  }

  /** setBoolean(value), setString(value), setLong(value), setInt(value), setShort(value),
      setByte(value). */
  function SetValue(n: Node, x: Scalar): Step
  {
    var c := Clear(n);
    if c.outcome.Raised? then c else Step(Store(c.state, x), Returned)
  }

  /** new GenericData().setX(value), the child a typed keyed or indexed setter stores. */
  function NewScalar(x: Scalar): Node
  {
    SetValue(FRESH, x).state
  }

  /** LinkedHashMap.put: a present key keeps its position and takes the new value, a new key is
      appended. */
  function Put(es: seq<Entry>, key: string, value: Node): seq<Entry>
  {
    if es == [] then [Entry(key, value)]
    else if es[0].key == key then [Entry(key, value)] + es[1..]
    else [es[0]] + Put(es[1..], key, value)
  }

  /** set(property, value), and setX(property, value) with value := NewScalar(x). The guard comes
      first; a scalar is cleared and falls through to the null case, which becomes an object and
      falls through to the put; an array forwards the call to get(0), a child it updates in place
      (an empty slot answers the immutable sentinel, an empty array raises). The value is stored as
      given, without a copy. */
  function SetKeyed(n: Node, property: string, value: Node): Step
    decreases Rank(n), n
  {
    if CheckMutable(n).Raised? then Step(n, CheckMutable(n))
    else match n.valueType
      case NullType => Step(n.(valueType := ObjectType, content := Put(n.content, property, value)), Returned)
      case ObjectType => Step(n.(content := Put(n.content, property, value)), Returned)
      case ArrayType =>
        if |n.elements| == 0 then Step(n, Raised(ArrayIndexOutOfBounds))
        else if n.elements[0].None? then Step(n, SetKeyed(NULL, property, value).outcome)
        else
          var child := SetKeyed(n.elements[0].value, property, value);
          Step(n.(elements := n.elements[0 := Some(child.state)]), child.outcome)
      case _ =>
        var c := Clear(n).state;
        Step(c.(valueType := ObjectType, content := Put(c.content, property, value)), Returned)
  }

  // ---------------------------------------------------------------------------------------------
  // set(Data, mutable): the deep copy

  /** set(value, mutable) on node n. After clear(): an empty source leaves the node as cleared and
      returns before isMutable is assigned; a keyed source is copied key by key through
      set(key, new GenericData(value.get(key), mutable)); a source of size > 1 becomes an array of
      copies; anything else takes one scalar kind, chosen in the order integral, numeric, boolean,
      string. Only a copy that completes assigns isMutable := mutable. */
  function CopyInto(fp: FloatOps, n: Node, src: Node, mutable: bool): Step
    decreases Rank(src), src, 1, 0
  {
    var c := Clear(n);
    if c.outcome.Raised? then c
    else if IsNull(src) then c
    else
      var s :=
        if KeySet(src) != {} then CopyEntries(fp, c.state, src, mutable, 0)
        else if Size(src) > 1 then
          KeysEmpty(src.content);
          FillSlots(fp, c.state.(valueType := ArrayType, elements := seq(Size(src), _ => None)), src, mutable, 0)
        else CopyScalar(fp, c.state, src);
      if s.outcome.Raised? then s else Step(s.state.(isMutable := mutable), Returned)
  }

  /** The loop over value.keySet(), from the i-th key on. The child copy is made before the keyed
      setter's guard runs. */
  function CopyEntries(fp: FloatOps, n: Node, src: Node, mutable: bool, i: nat): Step
    requires src.valueType == ObjectType && i <= |src.content|
    decreases Rank(src), src, 0, |src.content| - i
  {
    if i == |src.content| then Step(n, Returned)
    else
      var child := CopyInto(fp, FRESH, src.content[i].value, mutable);
      if child.outcome.Raised? then Step(n, child.outcome)
      else
        var s := SetKeyed(n, src.content[i].key, child.state);
        if s.outcome.Raised? then s else CopyEntries(fp, s.state, src, mutable, i + 1)
  }

  /** The loop array[i] = new GenericData(value.get(i), mutable), from slot i on. */
  function FillSlots(fp: FloatOps, n: Node, src: Node, mutable: bool, i: nat): Step
    requires src.valueType == ArrayType && |n.elements| == |src.elements| && i <= |n.elements|
    decreases Rank(src), src, 0, |src.elements| - i
  {
    if i == |n.elements| then Step(n, Returned)
    else
      var child := CopyInto(fp, FRESH, At(src, i), mutable);
      if child.outcome.Raised? then Step(n, child.outcome)
      else FillSlots(fp, n.(elements := n.elements[i := Some(child.state)]), src, mutable, i + 1)
  }

  /** The scalar branch of the copy: the tag is assigned before the getter runs, so a getter that
      raises leaves the new tag behind. */
  function CopyScalar(fp: FloatOps, n: Node, src: Node): Step
  {
    if IsIntegral(src) then
      var m := n.(valueType := IntegralType);
      match GetLong(src)
      case Ok(v) => Step(m.(integralValue := v), Returned)
      case Throw(e) => Step(m, Raised(e))
    else if IsNumeric(fp, src) then
      var m := n.(valueType := NumericType);
      match GetDouble(fp, src)
      case Ok(d) => Step(m.(numericValue := d), Returned)
      case Throw(e) => Step(m, Raised(e))
    else if IsBoolean(src) then
      var m := n.(valueType := BooleanType);
      match GetBoolean(src)
      case Ok(b) => Step(m.(booleanValue := b), Returned)
      case Throw(e) => Step(m, Raised(e))
    else
      var m := n.(valueType := StringType);
      match GetString(src)
      case Ok(s) => Step(m.(stringValue := s), Returned)
      case Throw(e) => Step(m, Raised(e))
  }

  /** new GenericData(value, mutable): a fresh mutable node that then copies value. */
  function Copy(fp: FloatOps, src: Node, mutable: bool): Step
  {
    CopyInto(fp, FRESH, src, mutable)
  }

  // ---------------------------------------------------------------------------------------------
  // Indexed setters

  /** set(index, value) and setX(index, value). After the guard: an array writes the slot; a null
      node is promoted; a scalar or an object is assigned whole at index 0 and promoted elsewhere. */
  function SetIndexed(fp: FloatOps, n: Node, index: Int, arg: Arg): Step
  {
    if CheckMutable(n).Raised? then Step(n, CheckMutable(n))
    else match n.valueType
      case ArrayType => WriteSlot(fp, n, index, arg)
      case NullType => Promote(fp, n, index, arg)
      case _ => if index == 0 then Assign(fp, n, arg) else Promote(fp, n, index, arg)
  }

  /** The index-0 branch: setX(value), or set(value), which copies with the node's own mutability. */
  function Assign(fp: FloatOps, n: Node, arg: Arg): Step
  {
    match arg
    case ScalarArg(x) => SetValue(n, x)
    case DataArg(d) => CopyInto(fp, n, d, n.isMutable)
  }

  /** The stored child: new GenericData().setX(value), or the copy new GenericData(value). */
  function Materialize(fp: FloatOps, arg: Arg): Result<Node>
  {
    match arg
    case ScalarArg(x) => Ok(NewScalar(x))
    case DataArg(d) =>
      var c := Copy(fp, d, true);
      if c.outcome.Raised? then Throw(c.outcome.error) else Ok(c.state)
  }

  /** The promotion: array := new Data[index] (a negative length raises before anything changes),
      the tag becomes array, and slot 0 receives new GenericData(this) -- a copy of the node as it now
      is, an array of `index` empty slots, so the old value is not carried over. The array then has
      exactly `index` slots, so the store at index 0 or at index raises. */
  function Promote(fp: FloatOps, n: Node, index: Int, arg: Arg): Step
  {
    if index < 0 then Step(n, Raised(NegativeArraySize))
    else
      var m := n.(elements := seq(index, _ => None), valueType := ArrayType);
      var data := Copy(fp, m, true);
      if data.outcome.Raised? then Step(m, data.outcome)
      else if index == 0 then Step(m, Raised(ArrayIndexOutOfBounds))
      else WriteSlot(fp, m.(elements := m.elements[0 := Some(data.state)]), index, arg)
  }

  /** ensureCapacity(index + 1), whose grown copy is discarded, then array[index] = child: Java
      evaluates the child before the bounds check, so a child that raises wins. */
  function WriteSlot(fp: FloatOps, n: Node, index: Int, arg: Arg): Step
  {
    match Materialize(fp, arg)
    case Throw(e) => Step(n, Raised(e))
    case Ok(child) =>
      if 0 <= index < |n.elements| then Step(n.(elements := n.elements[index := Some(child)]), Returned)
      else Step(n, Raised(ArrayIndexOutOfBounds))
  }
}
