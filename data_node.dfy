/** The state of one GenericData node (GenericData.java:37-55) and everything that only reads it:
    size, keySet, the structural lookups get(String) and get(int), the probes isAtomic, isBoolean,
    isIntegral, isNumeric, and the coercing getters. */
module DataNode {
  import opened JavaLang

  /** The tag of a node (the private enum ValueType). */
  datatype ValueType = BooleanType | StringType | IntegralType | NumericType | ObjectType | ArrayType | NullType

  /** A Java double as the core observes it: the text Double.toString gives, the casts (long) and
      (int), and whether it differs from 0. The floating-point value itself is not modelled. */
  datatype Double = Double(text: string, asLong: Long, asInt: Int, nonZero: bool)

  /** The field initialiser 0 of numericValue. */
  const ZERO: Double := Double("0.0", 0, 0, false)

  /** The floating-point library the core calls and this model does not implement: Double.parseDouble
      (None where it throws NumberFormatException) and the widening (double) of a long. */
  datatype FloatOps = FloatOps(parseDouble: string -> Option<Double>, fromLong: Long -> Double)

  /** One entry of the LinkedHashMap `content`. */
  datatype Entry = Entry(key: string, value: Node)

  /** The fields of a GenericData object. `content` lists the map's entries in insertion order;
      `elements` is the field `array` (a null field and an empty array both read as []: the field is
      read only while the tag is ArrayType, and then it is never null); a None slot is a null
      reference in the Java array. Children are held by value. */
  datatype Node = Node(
    valueType: ValueType,
    booleanValue: bool,
    stringValue: Option<string>,
    integralValue: Long,
    numericValue: Double,
    content: seq<Entry>,
    elements: seq<Option<Node>>,
    isMutable: bool)

  /** The shared sentinel GenericData.NULL = new GenericData(false): empty and immutable. */
  const NULL: Node := Node(NullType, false, None, 0, ZERO, [], [], false)

  /** new GenericData(): empty and mutable. */
  const FRESH: Node := NULL.(isMutable := true)

  predicate IsScalarType(t: ValueType)
  {
    t == BooleanType || t == StringType || t == IntegralType || t == NumericType
  }

  predicate IsComposite(n: Node)
  {
    n.valueType == ObjectType || n.valueType == ArrayType
  }

  /** Termination measure for the recursion through get(0): a lookup in a composite node yields
      a child, which is smaller, or the sentinel, whose rank is 0. */
  function Rank(n: Node): nat
  {
    if n.valueType == NullType then 0 else 1
  }

  // ---------------------------------------------------------------------------------------------
  // Well-formedness: unique keys at every level. NULL and a new node have it, and the
  // ...KeepsWellFormed lemmas of WriteProperties show every mutator keeps it.

  predicate DistinctKeys(es: seq<Entry>)
  {
    forall i, j :: 0 <= i < j < |es| ==> es[i].key != es[j].key
  }

  /** The map has unique keys at every level, and an empty node holds no entries. */
  predicate WellFormed(n: Node)
    decreases n
  {
    && DistinctKeys(n.content)
    && (n.valueType == NullType ==> n.content == [])
    && (forall i :: 0 <= i < |n.content| ==> WellFormed(n.content[i].value))
    && (forall i :: 0 <= i < |n.elements| && n.elements[i].Some? ==> WellFormed(n.elements[i].value))
  }

  // ---------------------------------------------------------------------------------------------
  // size, isEmpty, keySet

  /** size(): 0 when null, 1 for a scalar, the entry count of an object, the length of an array. */
  function Size(n: Node): nat
  {
    match n.valueType
    case NullType => 0
    case ObjectType => |n.content|
    case ArrayType => |n.elements|
    case _ => 1
  }

  predicate IsEmpty(n: Node)
  {
    Size(n) == 0
  }

  function Keys(es: seq<Entry>): set<string>
  {
    set e | e in es :: e.key
  }

  /** keySet(): the map's keys when the tag is object, otherwise the shared empty set. */
  function KeySet(n: Node): set<string>
  {
    if n.valueType != ObjectType then {} else Keys(n.content)
  }

  // ---------------------------------------------------------------------------------------------
  // get(String), get(int)

  /** LinkedHashMap.get: the value stored under key, or null. */
  function Lookup(es: seq<Entry>, key: string): Option<Node>
  {
    if es == [] then None
    else if es[0].key == key then Some(es[0].value)
    else Lookup(es[1..], key)
  }

  /** get(property): consults the map whatever the tag, and answers NULL when it holds nothing. */
  function GetKey(n: Node, property: string): Node
  {
    match Lookup(n.content, property)
    case Some(v) => v
    case None => NULL
  }

  /** The i-th element of a composite node, as get(i) yields it inside the bounds. */
  function At(n: Node, i: nat): Node
    requires IsComposite(n) && i < Size(n)
  {
    if n.valueType == ObjectType then n.content[i].value
    else if n.elements[i].None? then NULL
    else n.elements[i].value
  }

  /** get(index). On an array the guard `index < 0 && index > array.length` is never true, so every
      index reaches the raw access, which raises ArrayIndexOutOfBoundsException outside the bounds. */
  function GetIndex(n: Node, index: int): Result<Node>
  {
    match n.valueType
    case NullType => Ok(NULL)
    case ObjectType =>
      if index > Size(n) then Ok(NULL)
      else if 0 <= index < |n.content| then Ok(n.content[index].value)
      else Ok(NULL)
    case ArrayType =>
      if index < 0 && index > |n.elements| then Ok(NULL)
      else if 0 <= index < |n.elements| then Ok(if n.elements[index].None? then NULL else n.elements[index].value)
      else Throw(ArrayIndexOutOfBounds)
    case _ => if index == 0 then Ok(n) else Ok(NULL)
  }

  // ---------------------------------------------------------------------------------------------
  // isAtomic, isBoolean, isIntegral, isNumeric

  /** isAtomic(): a scalar, or a composite with exactly one element that is itself atomic. */
  predicate IsAtomic(n: Node)
    decreases Rank(n), n
  {
    match n.valueType
    case NullType => false
    case ObjectType => Size(n) == 1 && IsAtomic(At(n, 0))
    case ArrayType => Size(n) == 1 && IsAtomic(At(n, 0))
    case _ => true
  }

  /** isBoolean(): a boolean; any string, since Boolean.parseBoolean never throws; or a singleton
      composite whose element is boolean. */
  predicate IsBoolean(n: Node)
    decreases Rank(n), n
  {
    match n.valueType
    case BooleanType => true
    case StringType => true
    case ObjectType => Size(n) == 1 && IsBoolean(At(n, 0))
    case ArrayType => Size(n) == 1 && IsBoolean(At(n, 0))
    case _ => false
  }

  /** isIntegral(): an integral, a string Long.parseLong accepts, or a singleton composite whose
      element is integral. */
  predicate IsIntegral(n: Node)
    decreases Rank(n), n
  {
    match n.valueType
    case IntegralType => true
    case StringType => ParseLong(n.stringValue).Ok?
    case ObjectType => Size(n) == 1 && IsIntegral(At(n, 0))
    case ArrayType => Size(n) == 1 && IsIntegral(At(n, 0))
    case _ => false
  }

  /** isNumeric(): a double, a string Double.parseDouble accepts (a null string makes it throw, which
      the probe reports as false), or a singleton composite whose element is numeric. */
  predicate IsNumeric(fp: FloatOps, n: Node)
    decreases Rank(n), n
  {
    match n.valueType
    case NumericType => true
    case StringType => n.stringValue.Some? && fp.parseDouble(n.stringValue.value).Some?
    case ObjectType => Size(n) == 1 && IsNumeric(fp, At(n, 0))
    case ArrayType => Size(n) == 1 && IsNumeric(fp, At(n, 0))
    case _ => false
  }

  // ---------------------------------------------------------------------------------------------
  // Coercing getters. A composite delegates to get(0), which raises on an empty array.

  function GetBoolean(n: Node): Result<bool>
    decreases Rank(n), n
  {
    match n.valueType
    case NullType => Ok(false)
    case BooleanType => Ok(n.booleanValue)
    case IntegralType => Ok(n.integralValue != 0)
    case NumericType => Ok(n.numericValue.nonZero)
    case StringType => Ok(ParseBoolean(n.stringValue))
    case _ =>
      match GetIndex(n, 0)
      case Ok(c) => GetBoolean(c)
      case Throw(e) => Throw(e)
  }

  /** getString(): null (None) for an empty node, the textual form of a scalar. */
  function GetString(n: Node): Result<Option<string>>
    decreases Rank(n), n
  {
    match n.valueType
    case NullType => Ok(None)
    case BooleanType => Ok(Some(BoolToString(n.booleanValue)))
    case IntegralType => Ok(Some(LongToString(n.integralValue)))
    case NumericType => Ok(Some(n.numericValue.text))
    case StringType => Ok(n.stringValue)
    case _ =>
      match GetIndex(n, 0)
      case Ok(c) => GetString(c)
      case Throw(e) => Throw(e)
  }

  function GetLong(n: Node): Result<Long>
    decreases Rank(n), n
  {
    match n.valueType
    case NullType => Ok(0)
    case BooleanType => Ok(if n.booleanValue then 1 else 0)
    case IntegralType => Ok(n.integralValue)
    case NumericType => Ok(n.numericValue.asLong)
    case StringType => ParseLong(n.stringValue)
    case _ =>
      match GetIndex(n, 0)
      case Ok(c) => GetLong(c)
      case Throw(e) => Throw(e)
  }

  function GetInt(n: Node): Result<Int>
    decreases Rank(n), n
  {
    match n.valueType
    case NullType => Ok(0)
    case BooleanType => Ok(if n.booleanValue then 1 else 0)
    case IntegralType => Ok(ToInt(n.integralValue))
    case NumericType => Ok(n.numericValue.asInt)
    case StringType => ParseInt(n.stringValue)
    case _ =>
      match GetIndex(n, 0)
      case Ok(c) => GetInt(c)
      case Throw(e) => Throw(e)
  }

  /** getShort(): a double is narrowed by Java through int, hence ToShort of its (int) cast. */
  function GetShort(n: Node): Result<Short>
    decreases Rank(n), n
  {
    match n.valueType
    case NullType => Ok(0)
    case BooleanType => Ok(if n.booleanValue then 1 else 0)
    case IntegralType => Ok(ToShort(n.integralValue))
    case NumericType => Ok(ToShort(n.numericValue.asInt))
    case StringType => ParseShort(n.stringValue)
    case _ =>
      match GetIndex(n, 0)
      case Ok(c) => GetShort(c)
      case Throw(e) => Throw(e)
  }

  function GetByte(n: Node): Result<Byte>
    decreases Rank(n), n
  {
    match n.valueType
    case NullType => Ok(0)
    case BooleanType => Ok(if n.booleanValue then 1 else 0)
    case IntegralType => Ok(ToByte(n.integralValue))
    case NumericType => Ok(ToByte(n.numericValue.asInt))
    case StringType => ParseByte(n.stringValue)
    case _ =>
      match GetIndex(n, 0)
      case Ok(c) => GetByte(c)
      case Throw(e) => Throw(e)
  }

  /** getDouble(), which set(Data, mutable) calls on a numeric source; the conversions are the
      floating-point library's. Double.parseDouble(null) raises NullPointerException. */
  function GetDouble(fp: FloatOps, n: Node): Result<Double>
    decreases Rank(n), n
  {
    match n.valueType
    case NullType => Ok(fp.fromLong(0))
    case BooleanType => Ok(fp.fromLong(if n.booleanValue then 1 else 0))
    case IntegralType => Ok(fp.fromLong(n.integralValue))
    case NumericType => Ok(n.numericValue)
    case StringType =>
      if n.stringValue.None? then Throw(NullPointer)
      else (match fp.parseDouble(n.stringValue.value)
        case Some(d) => Ok(d)
        case None => Throw(NumberFormat))
    case _ =>
      match GetIndex(n, 0)
      case Ok(c) => GetDouble(fp, c)
      case Throw(e) => Throw(e)
  }

  // ---------------------------------------------------------------------------------------------
  // Properties of the reads

  /** LinkedHashMap.get misses exactly the keys the map does not hold. */
  lemma {:induction false} LookupMiss(es: seq<Entry>, key: string)
    ensures Lookup(es, key).None? <==> key !in Keys(es)
  {
    if es != [] {
      LookupMiss(es[1..], key);
      KeysCons(es);
    }
  }

  /** With unique keys, get(key) answers the value stored under that key. */
  lemma {:induction false} LookupFinds(es: seq<Entry>, i: nat)
    requires DistinctKeys(es) && i < |es|
    ensures Lookup(es, es[i].key) == Some(es[i].value)
  {
    if i > 0 {
      assert es[0].key != es[i].key;
      assert DistinctKeys(es[1..]) by {
        forall a, b | 0 <= a < b < |es[1..]| ensures es[1..][a].key != es[1..][b].key {
          assert es[1..][a] == es[a + 1] && es[1..][b] == es[b + 1];
        }
      }
      LookupFinds(es[1..], i - 1);
    }
  }

  /** The key set of a non-empty entry list splits into its head's key and the rest's keys. */
  lemma KeysCons(es: seq<Entry>)
    requires es != []
    ensures Keys(es) == {es[0].key} + Keys(es[1..])
  {
  }

  /** With unique keys, the key set has one key per entry. */
  lemma {:induction false} KeysCount(es: seq<Entry>)
    requires DistinctKeys(es)
    ensures |Keys(es)| == |es|
  {
    if es != [] {
      KeysCons(es);
      assert DistinctKeys(es[1..]) by {
        forall a, b | 0 <= a < b < |es[1..]| ensures es[1..][a].key != es[1..][b].key {
          assert es[1..][a] == es[a + 1] && es[1..][b] == es[b + 1];
        }
      }
      KeysCount(es[1..]);
      assert es[0].key !in Keys(es[1..]) by {
        forall e | e in es[1..] ensures e.key != es[0].key {
          var j :| 0 <= j < |es[1..]| && es[1..][j] == e;
          assert es[j + 1] == e;
        }
      }
    }
  }

  /** size() by kind: 1 for every scalar, the number of keys of an object, the length of an array,
      and 0 exactly for a null node or a composite that holds nothing. */
  lemma SizeByKind(n: Node)
    ensures IsScalarType(n.valueType) ==> Size(n) == 1
    ensures n.valueType == ObjectType && DistinctKeys(n.content) ==> Size(n) == |KeySet(n)|
    ensures n.valueType == ArrayType ==> Size(n) == |n.elements|
    ensures IsEmpty(n) <==>
              n.valueType == NullType || (n.valueType == ObjectType && KeySet(n) == {}) ||
              (n.valueType == ArrayType && n.elements == [])
  {
    if n.valueType == ObjectType {
      if DistinctKeys(n.content) {
        KeysCount(n.content);
      }
      if n.content != [] {
        KeysCons(n.content);
      }
    }
  }

  /** get(0) of a non-empty composite answers its first element. */
  lemma FirstElement(n: Node)
    requires IsComposite(n) && Size(n) > 0
    ensures GetIndex(n, 0) == Ok(At(n, 0))
  {
  }

  /** get(index) on each kind of node: an object answers its index-th entry's value inside the map's
      bounds and NULL outside them; an array answers its index-th slot (NULL for an empty slot) inside
      the bounds and raises ArrayIndexOutOfBoundsException outside them, negative indexes included; a
      scalar answers itself at 0 and NULL elsewhere; NULL answers NULL. */
  lemma GetIndexByKind(n: Node, index: Int)
    ensures n.valueType == ObjectType ==>
              GetIndex(n, index) == Ok(if 0 <= index < |n.content| then n.content[index].value else NULL)
    ensures n.valueType == ArrayType ==>
              (GetIndex(n, index).Ok? <==> 0 <= index < |n.elements|)
    ensures n.valueType == ArrayType && 0 <= index < |n.elements| ==>
              GetIndex(n, index) == Ok(At(n, index))
    ensures n.valueType == ArrayType && !(0 <= index < |n.elements|) ==>
              GetIndex(n, index) == Throw(ArrayIndexOutOfBounds)
    ensures IsScalarType(n.valueType) ==> GetIndex(n, index) == Ok(if index == 0 then n else NULL)
    ensures n.valueType == NullType ==> GetIndex(n, index) == Ok(NULL)
  {
  }

  /** Every probe that succeeds describes an atomic node. */
  lemma {:induction false} ProbesImplyAtomic(fp: FloatOps, n: Node)
    ensures IsBoolean(n) ==> IsAtomic(n)
    ensures IsIntegral(n) ==> IsAtomic(n)
    ensures IsNumeric(fp, n) ==> IsAtomic(n)
    decreases Rank(n), n
  {
    if IsComposite(n) && Size(n) == 1 {
      ProbesImplyAtomic(fp, At(n, 0));
    }
  }

  /** Each probe promises that the matching getter returns without raising: isBoolean for
      getBoolean, isIntegral for getLong, isNumeric for getDouble, isAtomic for getString. */
  lemma {:induction false} ProbesGuardGetters(fp: FloatOps, n: Node)
    ensures IsBoolean(n) ==> GetBoolean(n).Ok?
    ensures IsIntegral(n) ==> GetLong(n).Ok?
    ensures IsNumeric(fp, n) ==> GetDouble(fp, n).Ok?
    ensures IsAtomic(n) ==> GetString(n).Ok?
    decreases Rank(n), n
  {
    if IsComposite(n) && Size(n) == 1 {
      FirstElement(n);
      ProbesGuardGetters(fp, At(n, 0));
    }
  }

  /** isBoolean holds for every string node, "abc" and a null string included, because
      Boolean.parseBoolean never throws. */
  lemma EveryStringIsBoolean(s: Option<string>)
    ensures IsBoolean(NULL.(valueType := StringType, stringValue := s))
    ensures GetBoolean(NULL.(valueType := StringType, stringValue := Some("abc"))) == Ok(false)
  {
  }
}
