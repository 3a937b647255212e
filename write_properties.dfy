/** What the mutators promise: the mutation guard, the setter/getter round trips, the keyed setter's
    effect by tag, the indexed setter's promotions and failures, and the shape of a deep copy. */
module WriteProperties {
  import opened JavaLang
  import opened DataNode
  import opened DataDefaults
  import opened DataWrite

  // ---------------------------------------------------------------------------------------------
  // The guard and clear()

  /** clear() raises IllegalStateException only on a non-empty immutable node, and then changes
      nothing; otherwise it leaves an empty node with no keys and no array slots, and never touches
      the mutability flag. */
  lemma ClearContract(n: Node)
    ensures Clear(n).outcome.Raised? <==> !IsEmpty(n) && !n.isMutable
    ensures Clear(n).outcome.Raised? ==> Clear(n) == Step(n, Raised(IllegalState))
    ensures IsEmpty(n) ==> Clear(n) == Step(n, Returned)
    ensures Clear(n).outcome == Returned ==>
              var m := Clear(n).state;
              IsEmpty(m) && KeySet(m) == {} && m.isMutable == n.isMutable
    ensures !IsEmpty(n) && n.isMutable ==>
              var m := Clear(n).state;
              m.valueType == NullType && m.content == [] && m.elements == []
  {
  }

  /** Every whole-value setter on a non-empty immutable node raises IllegalStateException and
      changes nothing. */
  lemma SetValueGuard(n: Node, x: Scalar)
    requires !IsEmpty(n) && !n.isMutable
    ensures SetValue(n, x) == Step(n, Raised(IllegalState))
  {
  }

  /** Because clear() returns early on an empty node, setLong succeeds on the immutable sentinel
      NULL itself, which stays immutable and now holds the integer. */
  lemma SentinelAcceptsSetLong(v: Long)
    ensures SetValue(NULL, LongValue(v)).outcome == Returned
    ensures GetLong(SetValue(NULL, LongValue(v)).state) == Ok(v)
    ensures !SetValue(NULL, LongValue(v)).state.isMutable
  {
  }

  /** set(value, true) on the sentinel NULL also gets past clear(), and its last assignment makes
      NULL mutable: it holds the copied integer, and a later keyed setter on it succeeds and stores
      the property. */
  lemma SentinelBecomesMutable(fp: FloatOps, v: Long, property: string, value: Node)
    ensures var r := CopyInto(fp, NULL, NewScalar(LongValue(v)), true);
              && r.outcome == Returned
              && r.state.isMutable
              && GetLong(r.state) == Ok(v)
              && SetKeyed(r.state, property, value).outcome == Returned
              && GetKey(SetKeyed(r.state, property, value).state, property) == value
  {
  }

  // ---------------------------------------------------------------------------------------------
  // Whole-value setters and getters

  /** On a mutable or an empty node, a whole-value setter returns, leaves one atomic value that is
      not keyed, and the matching getter reads the value back: setBoolean/getBoolean,
      setString/getString, setLong/getLong; getString of an integer is its decimal rendering, and
      getInt its 32-bit truncation. */
  lemma SetValueRoundTrip(n: Node, x: Scalar)
    requires n.isMutable || IsEmpty(n)
    ensures SetValue(n, x).outcome == Returned
    ensures var m := SetValue(n, x).state;
              Size(m) == 1 && IsAtomic(m) && KeySet(m) == {} && m.isMutable == n.isMutable
    ensures x.BoolValue? ==> GetBoolean(SetValue(n, x).state) == Ok(x.b)
    ensures x.StringValue? ==> GetString(SetValue(n, x).state) == Ok(x.s)
    ensures x.LongValue? ==>
              && GetLong(SetValue(n, x).state) == Ok(x.v)
              && GetInt(SetValue(n, x).state) == Ok(ToInt(x.v))
              && GetString(SetValue(n, x).state) == Ok(Some(LongToString(x.v)))
  {
  }

  /** setInt(v) (v an int) reads back through getLong and getInt unchanged, and setShort(v) and
      setByte(v) through getShort and getByte. */
  lemma NarrowSettersRoundTrip(n: Node, v: Int, s: Short, b: Byte)
    requires n.isMutable || IsEmpty(n)
    ensures GetLong(SetValue(n, LongValue(v)).state) == Ok(v)
    ensures GetInt(SetValue(n, LongValue(v)).state) == Ok(v)
    ensures GetShort(SetValue(n, LongValue(s)).state) == Ok(s)
    ensures GetByte(SetValue(n, LongValue(b)).state) == Ok(b)
  {
  }

  /** setString(Long.toString(v)) then getLong() == v, and the node is integral; the narrower getters
      agree with the narrowing casts whenever they return. */
  lemma RenderedStringReadsAsLong(n: Node, v: Long)
    requires n.isMutable || IsEmpty(n)
    ensures var m := SetValue(n, StringValue(Some(LongToString(v)))).state;
              && GetLong(m) == Ok(v)
              && IsIntegral(m)
              && GetInt(m) == (if INT_MIN <= v <= INT_MAX then Ok(v as Int) else Throw(NumberFormat))
  {
    LongRoundTrip(v);
    RenderedParses(v, INT_MIN, INT_MAX);
  }

  /** setString(Boolean.toString(b)) then getBoolean() == b. */
  lemma RenderedStringReadsAsBoolean(n: Node, b: bool)
    requires n.isMutable || IsEmpty(n)
    ensures GetBoolean(SetValue(n, StringValue(Some(BoolToString(b)))).state) == Ok(b)
  {
    BooleanRoundTrip(b);
  }

  // ---------------------------------------------------------------------------------------------
  // LinkedHashMap.put

  /** put appends a new key and replaces a present key's value in its own position. */
  lemma {:induction false} PutAppendsOrReplaces(es: seq<Entry>, key: string, value: Node)
    ensures key !in Keys(es) ==> Put(es, key, value) == es + [Entry(key, value)]
    ensures key in Keys(es) ==>
              && |Put(es, key, value)| == |es|
              && (DistinctKeys(es) ==>
                    forall i :: 0 <= i < |es| ==>
                      Put(es, key, value)[i] == (if es[i].key == key then Entry(key, value) else es[i]))
  {
    if es != [] {
      KeysCons(es);
      PutAppendsOrReplaces(es[1..], key, value);
      if es[0].key == key {
        if DistinctKeys(es) {
          forall i | 1 <= i < |es| ensures es[i].key != key {
          }
        }
      } else if key in Keys(es) && DistinctKeys(es) {
        assert DistinctKeys(es[1..]) by {
          forall a, b | 0 <= a < b < |es[1..]| ensures es[1..][a].key != es[1..][b].key {
            assert es[1..][a] == es[a + 1] && es[1..][b] == es[b + 1];
          }
        }
      }
    }
  }

  /** After put, the map holds the new value under key, every other key keeps its value, the key set
      gains key, and the keys stay unique. */
  lemma {:induction false} PutLookup(es: seq<Entry>, key: string, value: Node)
    requires DistinctKeys(es)
    ensures DistinctKeys(Put(es, key, value))
    ensures Keys(Put(es, key, value)) == Keys(es) + {key}
    ensures Lookup(Put(es, key, value), key) == Some(value)
    ensures forall k :: k != key ==> Lookup(Put(es, key, value), k) == Lookup(es, k)
  {
    if es == [] {
      KeysCons([Entry(key, value)]);
    } else {
      var p := Put(es, key, value);
      KeysCons(es);
      KeysCons(p);
      assert DistinctKeys(es[1..]) by {
        forall a, b | 0 <= a < b < |es[1..]| ensures es[1..][a].key != es[1..][b].key {
          assert es[1..][a] == es[a + 1] && es[1..][b] == es[b + 1];
        }
      }
      if es[0].key == key {
        assert p[1..] == es[1..];
        forall a, b | 0 <= a < b < |p| ensures p[a].key != p[b].key {
          assert p[b] == es[b];
          if a > 0 {
            assert p[a] == es[a];
          }
        }
      } else {
        PutLookup(es[1..], key, value);
        assert p[1..] == Put(es[1..], key, value);
        forall a, b | 0 <= a < b < |p| ensures p[a].key != p[b].key {
          if a == 0 {
            assert p[b] == p[1..][b - 1];
            assert p[b] in p[1..];
            assert p[b].key in Keys(p[1..]);
            HeadKeyFresh(es);
          } else {
            assert p[a] == p[1..][a - 1] && p[b] == p[1..][b - 1];
          }
        }
      }
    }
  }

  /** With unique keys, the head's key does not occur in the tail. */
  lemma HeadKeyFresh(es: seq<Entry>)
    requires DistinctKeys(es) && es != []
    ensures es[0].key !in Keys(es[1..])
  {
  }

  // ---------------------------------------------------------------------------------------------
  // Keyed setters

  /** A keyed setter on an immutable node raises IllegalStateException and changes nothing. */
  lemma SetKeyedGuard(n: Node, property: string, value: Node)
    requires !n.isMutable
    ensures SetKeyed(n, property, value) == Step(n, Raised(IllegalState))
  {
  }

  /** On a mutable null or scalar node, a keyed setter yields an object whose only entry is the
      property, holding the value as given; the old scalar is gone. */
  lemma SetKeyedOnNullOrScalar(n: Node, property: string, value: Node)
    requires n.isMutable && WellFormed(n)
    requires n.valueType == NullType || IsScalarType(n.valueType)
    ensures SetKeyed(n, property, value).outcome == Returned
    ensures var m := SetKeyed(n, property, value).state;
              && m.valueType == ObjectType
              && m.content == [Entry(property, value)]
              && KeySet(m) == {property} && Size(m) == 1
              && GetKey(m, property) == value
              && GetIndex(m, 0) == Ok(value)
  {
  }

  /** On a mutable object, a keyed setter adds or replaces that key only: the other keys keep their
      values, the key set gains the property, the size grows by one exactly when the key is new, and
      the keys stay unique. */
  lemma SetKeyedOnObject(n: Node, property: string, value: Node)
    requires n.isMutable && n.valueType == ObjectType && DistinctKeys(n.content)
    ensures SetKeyed(n, property, value).outcome == Returned
    ensures var m := SetKeyed(n, property, value).state;
              && m.valueType == ObjectType
              && DistinctKeys(m.content)
              && KeySet(m) == KeySet(n) + {property}
              && GetKey(m, property) == value
              && (forall k :: k != property ==> GetKey(m, k) == GetKey(n, k))
              && Size(m) == Size(n) + (if property in KeySet(n) then 0 else 1)
  {
    PutLookup(n.content, property, value);
    PutAppendsOrReplaces(n.content, property, value);
  }

  /** On a mutable array, a keyed setter works on get(0) and the node stays an array of the same
      length with every other slot unchanged: an empty array raises ArrayIndexOutOfBoundsException,
      an empty first slot reaches the immutable sentinel and raises IllegalStateException, and a
      present first child takes the keyed set itself. */
  lemma SetKeyedOnArray(n: Node, property: string, value: Node)
    requires n.isMutable && n.valueType == ArrayType
    ensures var m := SetKeyed(n, property, value).state;
              && m.valueType == ArrayType
              && |m.elements| == |n.elements|
              && (forall i :: 1 <= i < |n.elements| ==> m.elements[i] == n.elements[i])
    ensures |n.elements| == 0 ==> SetKeyed(n, property, value) == Step(n, Raised(ArrayIndexOutOfBounds))
    ensures |n.elements| > 0 && n.elements[0].None? ==>
              SetKeyed(n, property, value) == Step(n, Raised(IllegalState))
    ensures |n.elements| > 0 && n.elements[0].Some? ==>
              var child := SetKeyed(n.elements[0].value, property, value);
              && SetKeyed(n, property, value).state.elements[0] == Some(child.state)
              && SetKeyed(n, property, value).outcome == child.outcome
  {
  }

  /** A typed keyed setter on a mutable null, scalar or object node reads back through the interface's
      defaulting getters: setLong(property, v) then getLong(property, d) == v, and
      setString(property, s) then getString(property, d) is s, or d when s is null. */
  lemma KeyedSetterRoundTrip(n: Node, property: string, v: Long, s: Option<string>, dl: Long, ds: Option<string>)
    requires n.isMutable && WellFormed(n)
    requires n.valueType == NullType || n.valueType == ObjectType || IsScalarType(n.valueType)
    ensures GetLongOr(SetKeyed(n, property, NewScalar(LongValue(v))).state, property, dl) == Ok(v)
    ensures GetStringOr(SetKeyed(n, property, NewScalar(StringValue(s))).state, property, ds) ==
              Ok(if s.None? then ds else s)
  {
    if n.valueType == ObjectType {
      SetKeyedOnObject(n, property, NewScalar(LongValue(v)));
      SetKeyedOnObject(n, property, NewScalar(StringValue(s)));
    } else {
      SetKeyedOnNullOrScalar(n, property, NewScalar(LongValue(v)));
      SetKeyedOnNullOrScalar(n, property, NewScalar(StringValue(s)));
    }
  }

  /** set(property, value) on a mutable null, scalar or object node, read back through the
      interface's defaulting getters: getLong(property, d) answers d when the value is empty and the
      value's getLong otherwise, and getString(property, d) answers d when the value's string is null
      and the value's string otherwise. */
  lemma KeyedDataReadsThrough(n: Node, property: string, value: Node, ds: Option<string>, dl: Long)
    requires n.isMutable && WellFormed(n)
    requires n.valueType == NullType || n.valueType == ObjectType || IsScalarType(n.valueType)
    ensures GetLongOr(SetKeyed(n, property, value).state, property, dl) ==
              if IsEmpty(value) then Ok(dl) else GetLong(value)
    ensures GetStringOr(SetKeyed(n, property, value).state, property, ds) ==
              if GetString(value) == Ok(None) then Ok(ds) else GetString(value)
  {
    if n.valueType == ObjectType {
      SetKeyedOnObject(n, property, value);
    } else {
      SetKeyedOnNullOrScalar(n, property, value);
    }
  }

  // ---------------------------------------------------------------------------------------------
  // Well-formedness is kept by every mutator

  /** The two nodes a program starts from are well formed, and clear() and the whole-value setters
      keep a node well formed. */
  lemma ClearKeepsWellFormed(n: Node, x: Scalar)
    requires WellFormed(n)
    ensures WellFormed(NULL) && WellFormed(FRESH) && WellFormed(NewScalar(x))
    ensures WellFormed(Clear(n).state) && WellFormed(SetValue(n, x).state)
  {
  }

  /** put keeps every stored value well formed when the new value is. */
  lemma {:induction false} PutKeepsWellFormed(es: seq<Entry>, key: string, value: Node)
    requires WellFormed(value)
    requires forall i :: 0 <= i < |es| ==> WellFormed(es[i].value)
    ensures forall i :: 0 <= i < |Put(es, key, value)| ==> WellFormed(Put(es, key, value)[i].value)
  {
    if es != [] && es[0].key != key {
      PutKeepsWellFormed(es[1..], key, value);
      var p := Put(es, key, value);
      forall i | 0 < i < |p| ensures WellFormed(p[i].value) {
        assert p[i] == Put(es[1..], key, value)[i - 1];
      }
    }
  }

  /** A keyed setter keeps a node well formed when it stores a well-formed value. */
  lemma {:induction false} SetKeyedKeepsWellFormed(n: Node, property: string, value: Node)
    requires WellFormed(n) && WellFormed(value)
    ensures WellFormed(SetKeyed(n, property, value).state)
    decreases Rank(n), n
  {
    if n.isMutable {
      match n.valueType
      case ArrayType =>
        if |n.elements| > 0 && n.elements[0].Some? {
          SetKeyedKeepsWellFormed(n.elements[0].value, property, value);
        }
      case _ =>
        var c := if n.valueType == ObjectType || n.valueType == NullType then n else Clear(n).state;
        PutLookup(c.content, property, value);
        PutKeepsWellFormed(c.content, property, value);
    }
  }

  /** set(value, mutable) keeps a well-formed node well formed, whatever the source and however the
      copy ends. */
  lemma {:induction false} CopyIntoKeepsWellFormed(fp: FloatOps, n: Node, src: Node, mutable: bool)
    requires WellFormed(n)
    ensures WellFormed(CopyInto(fp, n, src, mutable).state)
    decreases Rank(src), src, 1, 0
  {
    ClearKeepsWellFormed(n, BoolValue(false));
    var c := Clear(n);
    if c.outcome.Returned? && !IsNull(src) {
      if KeySet(src) != {} {
        CopyEntriesKeepsWellFormed(fp, c.state, src, mutable, 0);
      } else if Size(src) > 1 {
        KeysEmpty(src.content);
        FillSlotsKeepsWellFormed(fp, c.state.(valueType := ArrayType, elements := seq(Size(src), _ => None)), src, mutable, 0);
      } else {
        CopyScalarKeepsWellFormed(fp, c.state, src);
      }
    }
  }

  /** The scalar branch of the copy changes only the tag and a payload field. */
  lemma CopyScalarKeepsWellFormed(fp: FloatOps, n: Node, src: Node)
    requires WellFormed(n)
    ensures var m := CopyScalar(fp, n, src).state;
              m.content == n.content && m.elements == n.elements && m.valueType != NullType
    ensures WellFormed(CopyScalar(fp, n, src).state)
  {
  }

  lemma {:induction false} CopyEntriesKeepsWellFormed(fp: FloatOps, n: Node, src: Node, mutable: bool, i: nat)
    requires src.valueType == ObjectType && i <= |src.content| && WellFormed(n)
    ensures WellFormed(CopyEntries(fp, n, src, mutable, i).state)
    decreases Rank(src), src, 0, |src.content| - i
  {
    if i < |src.content| {
      CopyIntoKeepsWellFormed(fp, FRESH, src.content[i].value, mutable);
      var child := CopyInto(fp, FRESH, src.content[i].value, mutable);
      if child.outcome.Returned? {
        SetKeyedKeepsWellFormed(n, src.content[i].key, child.state);
        var s := SetKeyed(n, src.content[i].key, child.state);
        if s.outcome.Returned? {
          CopyEntriesKeepsWellFormed(fp, s.state, src, mutable, i + 1);
        }
      }
    }
  }

  lemma {:induction false} FillSlotsKeepsWellFormed(fp: FloatOps, n: Node, src: Node, mutable: bool, i: nat)
    requires src.valueType == ArrayType && |n.elements| == |src.elements| && i <= |n.elements|
    requires WellFormed(n)
    ensures WellFormed(FillSlots(fp, n, src, mutable, i).state)
    decreases Rank(src), src, 0, |src.elements| - i
  {
    if i < |n.elements| {
      CopyIntoKeepsWellFormed(fp, FRESH, At(src, i), mutable);
      var child := CopyInto(fp, FRESH, At(src, i), mutable);
      if child.outcome.Returned? {
        FillSlotsKeepsWellFormed(fp, n.(elements := n.elements[i := Some(child.state)]), src, mutable, i + 1);
      }
    }
  }

  /** An indexed setter keeps a node well formed, whatever it stores and however it ends. */
  lemma SetIndexedKeepsWellFormed(fp: FloatOps, n: Node, index: Int, arg: Arg)
    requires WellFormed(n)
    ensures WellFormed(SetIndexed(fp, n, index, arg).state)
  {
    if arg.DataArg? {
      CopyIntoKeepsWellFormed(fp, FRESH, arg.d, true);
      CopyIntoKeepsWellFormed(fp, n, arg.d, n.isMutable);
    } else {
      ClearKeepsWellFormed(n, arg.x);
    }
    if index >= 0 {
      var m := n.(elements := seq(index, _ => None), valueType := ArrayType);
      CopyIntoKeepsWellFormed(fp, FRESH, m, true);
    }
  }

  // ---------------------------------------------------------------------------------------------
  // Indexed setters

  /** An indexed setter on an immutable node raises IllegalStateException and changes nothing. */
  lemma SetIndexedGuard(fp: FloatOps, n: Node, index: Int, arg: Arg)
    requires !n.isMutable
    ensures SetIndexed(fp, n, index, arg) == Step(n, Raised(IllegalState))
  {
  }

  /** On a mutable array an indexed setter stores the new child in its slot when the index is inside
      the bounds, and leaves every other slot alone. Any other index, negative or at least the
      length, raises ArrayIndexOutOfBoundsException with the node unchanged, because ensureCapacity
      discards the array it grows. A child that cannot be built raises first. */
  lemma SetIndexedOnArray(fp: FloatOps, n: Node, index: Int, arg: Arg)
    requires n.isMutable && n.valueType == ArrayType
    ensures Materialize(fp, arg).Throw? ==>
              SetIndexed(fp, n, index, arg) == Step(n, Raised(Materialize(fp, arg).error))
    ensures Materialize(fp, arg).Ok? && !(0 <= index < |n.elements|) ==>
              SetIndexed(fp, n, index, arg) == Step(n, Raised(ArrayIndexOutOfBounds))
    ensures Materialize(fp, arg).Ok? && 0 <= index < |n.elements| ==>
              var r := SetIndexed(fp, n, index, arg);
              && r.outcome == Returned
              && r.state == n.(elements := n.elements[index := Some(Materialize(fp, arg).value)])
              && GetIndex(r.state, index) == Ok(Materialize(fp, arg).value)
              && (forall j: Int :: j != index ==> GetIndex(r.state, j) == GetIndex(n, j))
  {
  }

  /** A negative index on a mutable node that is not an array raises NegativeArraySizeException from
      new Data[index] before anything changes. */
  lemma PromoteNegativeIndex(fp: FloatOps, n: Node, index: Int, arg: Arg)
    requires n.isMutable && n.valueType != ArrayType && index < 0
    ensures SetIndexed(fp, n, index, arg) == Step(n, Raised(NegativeArraySize))
  {
  }

  /** Index 0 on a mutable null node allocates an empty array and writes slot 0 of it: the call raises
      ArrayIndexOutOfBoundsException and leaves an empty array behind, a node that is empty without
      being tagged null. */
  lemma NullNodeIndexZero(fp: FloatOps, n: Node, arg: Arg)
    requires n.isMutable && n.valueType == NullType
    ensures SetIndexed(fp, n, 0, arg) ==
              Step(n.(valueType := ArrayType, elements := []), Raised(ArrayIndexOutOfBounds))
    ensures IsEmpty(SetIndexed(fp, n, 0, arg).state)
  {
  }

  /** On a mutable null, scalar or object node, a positive index always raises: the node becomes an
      array of exactly `index` slots, slot 0 holds a copy taken after the tag changed -- so it reads as
      a null string and the old value is lost -- the other slots are empty, and the store at `index`
      is out of bounds. */
  lemma PromotePositiveIndex(fp: FloatOps, n: Node, index: Int, arg: Arg)
    requires n.isMutable && n.valueType != ArrayType && index > 0
    ensures var r := SetIndexed(fp, n, index, arg);
              && r.outcome == Raised(if Materialize(fp, arg).Throw? then Materialize(fp, arg).error
                                     else ArrayIndexOutOfBounds)
              && r.state.valueType == ArrayType
              && |r.state.elements| == index
              && r.state.elements[0].Some?
              && GetString(r.state.elements[0].value) == Ok(None)
              && (forall i :: 1 <= i < index ==> r.state.elements[i].None?)
              && GetIndex(r.state, index) == Throw(ArrayIndexOutOfBounds)
  {
    var m := n.(elements := seq(index, _ => None), valueType := ArrayType);
    CopyOfEmptySlots(fp, m);
  }

  /** new GenericData(this) of an array whose slots are all empty: one slot copies as a null string,
      more slots copy as that many fresh empty nodes. */
  lemma CopyOfEmptySlots(fp: FloatOps, m: Node)
    requires m.valueType == ArrayType && |m.elements| > 0
    requires forall i :: 0 <= i < |m.elements| ==> m.elements[i].None?
    ensures Copy(fp, m, true).outcome == Returned
    ensures GetString(Copy(fp, m, true).state) == Ok(None)
    ensures |m.elements| > 1 ==> Copy(fp, m, true).state.elements == seq(|m.elements|, _ => Some(FRESH))
  {
    if |m.elements| > 1 {
      var start := FRESH.(valueType := ArrayType, elements := seq(|m.elements|, _ => None));
      FillEmptySlots(fp, start, m, 0);
      assert start.elements[..0] + seq(|m.elements|, _ => Some(FRESH)) == seq(|m.elements|, _ => Some(FRESH));
      var r := Copy(fp, m, true);
      assert r == Step(start.(elements := seq(|m.elements|, _ => Some(FRESH)), isMutable := true), Returned);
      assert GetIndex(r.state, 0) == Ok(FRESH);
    } else {
      assert At(m, 0) == NULL;
      assert !IsIntegral(m) && !IsNumeric(fp, m) && !IsBoolean(m);
      assert GetString(m) == Ok(None);
      assert CopyScalar(fp, FRESH, m) == Step(FRESH.(valueType := StringType, stringValue := None), Returned);
    }
  }

  /** The copy loop over a source whose slots are all empty stores a fresh empty node in every slot. */
  lemma {:induction false} FillEmptySlots(fp: FloatOps, n: Node, src: Node, i: nat)
    requires src.valueType == ArrayType && |n.elements| == |src.elements| && i <= |n.elements|
    requires forall j :: 0 <= j < |src.elements| ==> src.elements[j].None?
    ensures FillSlots(fp, n, src, true, i) ==
              Step(n.(elements := n.elements[..i] + seq(|n.elements| - i, _ => Some(FRESH))), Returned)
    decreases |n.elements| - i
  {
    if i < |n.elements| {
      assert At(src, i) == NULL;
      var next := n.(elements := n.elements[i := Some(FRESH)]);
      FillEmptySlots(fp, next, src, i + 1);
      assert next.elements[..i + 1] + seq(|n.elements| - i - 1, _ => Some(FRESH)) ==
             n.elements[..i] + seq(|n.elements| - i, _ => Some(FRESH));
    } else {
      assert n.elements[..i] + seq(0, _ => Some(FRESH)) == n.elements;
    }
  }

  // ---------------------------------------------------------------------------------------------
  // set(Data, mutable)

  /** The entries a keyed copy builds: each key of the source with a fresh copy of its value. */
  function CopiedEntries(fp: FloatOps, src: Node, mutable: bool): (r: seq<Entry>)
    ensures |r| == |src.content|
  {
    seq(|src.content|, i requires 0 <= i < |src.content| =>
      Entry(src.content[i].key, Copy(fp, src.content[i].value, mutable).state))
  }

  /** The slots an array copy builds: a fresh copy of each get(i) of the source. */
  function CopiedSlots(fp: FloatOps, src: Node, mutable: bool): (r: seq<Option<Node>>)
    requires src.valueType == ArrayType
    ensures |r| == |src.elements|
  {
    seq(|src.elements|, i requires 0 <= i < |src.elements| => Some(Copy(fp, At(src, i), mutable).state))
  }

  /** A keyed copy keeps the source's key set. */
  lemma CopiedEntriesKeys(fp: FloatOps, src: Node, mutable: bool)
    ensures Keys(CopiedEntries(fp, src, mutable)) == Keys(src.content)
  {
    var ce := CopiedEntries(fp, src, mutable);
    forall k | k in Keys(ce) ensures k in Keys(src.content) {
      var e :| e in ce && e.key == k;
      var j :| 0 <= j < |ce| && ce[j] == e;
      assert src.content[j] in src.content;
    }
    forall k | k in Keys(src.content) ensures k in Keys(ce) {
      var e :| e in src.content && e.key == k;
      var j :| 0 <= j < |src.content| && src.content[j] == e;
      assert ce[j] in ce;
    }
  }

  /** One turn of the key loop: the i-th copied entry is new to the node, so the keyed setter
      appends it. */
  lemma CopyEntriesStep(fp: FloatOps, n: Node, src: Node, mutable: bool, i: nat)
    requires src.valueType == ObjectType && DistinctKeys(src.content) && i < |src.content|
    requires n.isMutable
    requires n.valueType == ObjectType || (n.valueType == NullType && i == 0)
    requires n.content == CopiedEntries(fp, src, mutable)[..i]
    requires Copy(fp, src.content[i].value, mutable).outcome == Returned
    ensures SetKeyed(n, src.content[i].key, Copy(fp, src.content[i].value, mutable).state) ==
              Step(n.(valueType := ObjectType, content := CopiedEntries(fp, src, mutable)[..i + 1]), Returned)
  {
    var ce := CopiedEntries(fp, src, mutable);
    var child := Copy(fp, src.content[i].value, mutable);
    assert src.content[i].key !in Keys(n.content) by {
      forall e | e in n.content ensures e.key != src.content[i].key {
        var j :| 0 <= j < i && n.content[j] == e;
        assert e.key == src.content[j].key;
      }
    }
    PutAppendsOrReplaces(n.content, src.content[i].key, child.state);
    assert ce[..i + 1] == ce[..i] + [ce[i]];
  }

  /** The key loop of the copy, from the i-th key on, on a mutable node that already holds the first
      i copied entries: it completes exactly when every remaining child copies, and then holds all of
      them, in the source's order. */
  lemma {:induction false} CopyEntriesSpec(fp: FloatOps, n: Node, src: Node, mutable: bool, i: nat)
    requires src.valueType == ObjectType && DistinctKeys(src.content) && i <= |src.content|
    requires n.isMutable
    requires n.valueType == ObjectType || (n.valueType == NullType && i == 0 && |src.content| > 0)
    requires n.content == CopiedEntries(fp, src, mutable)[..i]
    ensures var r := CopyEntries(fp, n, src, mutable, i);
              && (r.outcome == Returned <==>
                    forall j :: i <= j < |src.content| ==> Copy(fp, src.content[j].value, mutable).outcome == Returned)
              && (r.outcome == Returned ==>
                    r.state == n.(valueType := ObjectType, content := CopiedEntries(fp, src, mutable)))
    decreases |src.content| - i
  {
    var ce := CopiedEntries(fp, src, mutable);
    if i < |src.content| {
      var child := Copy(fp, src.content[i].value, mutable);
      if child.outcome == Returned {
        CopyEntriesStep(fp, n, src, mutable, i);
        CopyEntriesSpec(fp, SetKeyed(n, src.content[i].key, child.state).state, src, mutable, i + 1);
      }
    } else {
      assert ce[..i] == ce;
    }
  }

  /** The slot loop of the copy, from slot i on, on a node whose first i slots already hold copies:
      it completes exactly when every remaining element copies, and then holds all the copies. */
  lemma {:induction false} FillSlotsSpec(fp: FloatOps, n: Node, src: Node, mutable: bool, i: nat)
    requires src.valueType == ArrayType && |n.elements| == |src.elements| && i <= |n.elements|
    requires n.elements[..i] == CopiedSlots(fp, src, mutable)[..i]
    ensures var r := FillSlots(fp, n, src, mutable, i);
              && (r.outcome == Returned <==>
                    forall j :: i <= j < |src.elements| ==> Copy(fp, At(src, j), mutable).outcome == Returned)
              && (r.outcome == Returned ==> r.state == n.(elements := CopiedSlots(fp, src, mutable)))
    decreases |n.elements| - i
  {
    var cs := CopiedSlots(fp, src, mutable);
    if i < |n.elements| {
      var child := Copy(fp, At(src, i), mutable);
      if child.outcome == Returned {
        var next := n.(elements := n.elements[i := Some(child.state)]);
        assert next.elements[..i + 1] == cs[..i + 1] by {
          assert next.elements[..i + 1] == n.elements[..i] + [Some(child.state)];
          assert cs[..i + 1] == cs[..i] + [cs[i]];
        }
        FillSlotsSpec(fp, next, src, mutable, i + 1);
      }
    } else {
      assert n.elements == n.elements[..i];
      assert cs == cs[..i];
    }
  }

  /** Copying an empty source leaves the node as clear() left it, and -- returning before the
      assignment -- does not apply the requested mutability. */
  lemma CopyOfEmpty(fp: FloatOps, n: Node, src: Node, mutable: bool)
    requires IsEmpty(src) && (n.isMutable || IsEmpty(n))
    ensures CopyInto(fp, n, src, mutable) == Clear(n)
    ensures CopyInto(fp, n, src, mutable).outcome == Returned
    ensures var m := CopyInto(fp, n, src, mutable).state; IsEmpty(m) && m.isMutable == n.isMutable
  {
  }

  /** Copying a keyed source into a mutable node that is not an empty array yields an object with the
      source's keys in the source's order, each holding a fresh copy of the source's value; the copy
      completes exactly when every child copy does, and then isMutable is the argument. */
  lemma CopyKeyed(fp: FloatOps, n: Node, src: Node, mutable: bool)
    requires WellFormed(src) && KeySet(src) != {}
    requires n.isMutable && WellFormed(n) && !(n.valueType == ArrayType && |n.elements| == 0)
    ensures var r := CopyInto(fp, n, src, mutable);
              && (r.outcome == Returned <==>
                    forall j :: 0 <= j < |src.content| ==> Copy(fp, src.content[j].value, mutable).outcome == Returned)
              && (r.outcome == Returned ==>
                    && r.state.valueType == ObjectType
                    && r.state.content == CopiedEntries(fp, src, mutable)
                    && KeySet(r.state) == KeySet(src)
                    && r.state.isMutable == mutable)
  {
    IsObjectIffEntries(src);
    var c := Clear(n).state;
    if IsEmpty(n) {
      EmptyContract(n);
    }
    assert c.content == [] by {
      if IsEmpty(n) && n.valueType == ObjectType {
        assert |n.content| == 0;
      }
    }
    assert c.content == CopiedEntries(fp, src, mutable)[..0];
    CopyEntriesSpec(fp, c, src, mutable, 0);
    CopiedEntriesKeys(fp, src, mutable);
  }

  /** The case CopyKeyed leaves aside: clear() keeps an empty array as it is, so the first keyed set
      goes to get(0) of no slots and raises ArrayIndexOutOfBoundsException, the node unchanged. */
  lemma CopyKeyedIntoEmptyArray(fp: FloatOps, n: Node, src: Node, mutable: bool)
    requires KeySet(src) != {} && n.isMutable && n.valueType == ArrayType && n.elements == []
    requires Copy(fp, src.content[0].value, mutable).outcome == Returned
    ensures CopyInto(fp, n, src, mutable) == Step(n, Raised(ArrayIndexOutOfBounds))
  {
  }

  /** Copying an array of more than one element into a mutable or empty node yields an array of the
      same length whose slots are fresh copies of the source's elements; the copy completes exactly
      when every element copies, and then isMutable is the argument. */
  lemma CopyArray(fp: FloatOps, n: Node, src: Node, mutable: bool)
    requires src.valueType == ArrayType && |src.elements| > 1
    requires n.isMutable || IsEmpty(n)
    ensures var r := CopyInto(fp, n, src, mutable);
              && (r.outcome == Returned <==>
                    forall j :: 0 <= j < |src.elements| ==> Copy(fp, At(src, j), mutable).outcome == Returned)
              && (r.outcome == Returned ==>
                    r.state == Clear(n).state.(valueType := ArrayType, elements := CopiedSlots(fp, src, mutable),
                                               isMutable := mutable))
  {
    var start := Clear(n).state.(valueType := ArrayType, elements := seq(|src.elements|, _ => None));
    FillSlotsSpec(fp, start, src, mutable, 0);
  }

  /** A non-keyed source of size 1 is copied as one scalar, chosen in the order integral, numeric,
      boolean, string; only the string case can raise, and it leaves the string tag behind. */
  lemma CopyPrecedence(fp: FloatOps, n: Node, src: Node, mutable: bool)
    requires n.isMutable || IsEmpty(n)
    requires KeySet(src) == {} && Size(src) == 1
    ensures var r := CopyInto(fp, n, src, mutable);
            var c := Clear(n).state;
              && (IsIntegral(src) ==>
                    && r.outcome == Returned && GetLong(src) == Ok(r.state.integralValue)
                    && r.state == c.(valueType := IntegralType, integralValue := r.state.integralValue, isMutable := mutable))
              && (!IsIntegral(src) && IsNumeric(fp, src) ==>
                    && r.outcome == Returned && GetDouble(fp, src) == Ok(r.state.numericValue)
                    && r.state == c.(valueType := NumericType, numericValue := r.state.numericValue, isMutable := mutable))
              && (!IsIntegral(src) && !IsNumeric(fp, src) && IsBoolean(src) ==>
                    && r.outcome == Returned && GetBoolean(src) == Ok(r.state.booleanValue)
                    && r.state == c.(valueType := BooleanType, booleanValue := r.state.booleanValue, isMutable := mutable))
              && (!IsIntegral(src) && !IsNumeric(fp, src) && !IsBoolean(src) ==>
                    && r.state.valueType == StringType
                    && (r.outcome == Returned <==> GetString(src).Ok?)
                    && (r.outcome == Returned ==>
                          GetString(src) == Ok(r.state.stringValue) && r.state.isMutable == mutable))
  {
    ProbesGuardGetters(fp, src);
  }

  /** A completed copy of a non-empty source always has the requested mutability. */
  lemma CopyMutability(fp: FloatOps, n: Node, src: Node, mutable: bool)
    requires !IsEmpty(src) && CopyInto(fp, n, src, mutable).outcome == Returned
    ensures CopyInto(fp, n, src, mutable).state.isMutable == mutable
  {
  }

  /** Copying the text Long.toString(v) yields the integral v. */
  lemma RenderedLongCopiesAsIntegral(fp: FloatOps, v: Long, mutable: bool)
    ensures Copy(fp, NULL.(valueType := StringType, stringValue := Some(LongToString(v))), mutable) ==
              Step(FRESH.(valueType := IntegralType, integralValue := v, isMutable := mutable), Returned)
  {
    LongRoundTrip(v);
  }

  /** A string that is neither integral nor numeric is copied as a boolean, since isBoolean accepts
      every string: the copy of "abc" reads false, and its text is lost. */
  lemma NonNumericStringCopiesAsBoolean(fp: FloatOps, s: string, mutable: bool)
    requires ParseLong(Some(s)).Throw? && fp.parseDouble(s).None?
    ensures var r := Copy(fp, NULL.(valueType := StringType, stringValue := Some(s)), mutable);
              && r == Step(FRESH.(valueType := BooleanType, booleanValue := ParseBoolean(Some(s)), isMutable := mutable), Returned)
              && GetString(r.state) == Ok(Some(BoolToString(ParseBoolean(Some(s)))))
  {
  }

  /** set(String, Data) stores the caller's node as it is, while set(int, Data) stores a fresh mutable
      copy: an immutable string "abc" is kept as an immutable string under a key and becomes a mutable
      boolean in a slot. */
  lemma KeyedStoresIndexedCopies(fp: FloatOps, n: Node, property: string)
    requires n.isMutable && n.valueType == ObjectType && DistinctKeys(n.content)
    requires ParseLong(Some("abc")).Throw? && fp.parseDouble("abc").None?
    ensures var d := NULL.(valueType := StringType, stringValue := Some("abc"));
              && GetKey(SetKeyed(n, property, d).state, property) == d
              && Materialize(fp, DataArg(d)) ==
                   Ok(FRESH.(valueType := BooleanType, booleanValue := false, isMutable := true))
  {
    var d := NULL.(valueType := StringType, stringValue := Some("abc"));
    SetKeyedOnObject(n, property, d);
    NonNumericStringCopiesAsBoolean(fp, "abc", true);
  }
}
