/** The default methods of the Data interface (Data.java), computed from the node's own
    keySet, isEmpty, get and getters. */
module DataDefaults {
  import opened JavaLang
  import opened DataNode

  /** isObject(): the key set is not empty. */
  predicate IsObject(n: Node)
  {
    KeySet(n) != {}
  }

  /** isNull(): equivalent to isEmpty(). */
  predicate IsNull(n: Node)
  {
    IsEmpty(n)
  }

  /** getString(property, defaultValue): the default stands in for a null string. */
  function GetStringOr(n: Node, property: string, defaultValue: Option<string>): Result<Option<string>>
  {
    match GetString(GetKey(n, property))
    case Ok(result) => Ok(if result.None? then defaultValue else result)
    case Throw(e) => Throw(e)
  }

  /** getLong(property, defaultValue): the default when the property's data is null or empty,
      otherwise getLong(property). get never answers a Java null here, so only isNull() decides. */
  function GetLongOr(n: Node, property: string, defaultValue: Long): Result<Long>
  {
    var propData := GetKey(n, property);
    if IsNull(propData) then Ok(defaultValue) else GetLong(GetKey(n, property))
  }

  // ---------------------------------------------------------------------------------------------
  // Properties

  /** The key set of an entry list is empty exactly when the list is. */
  lemma KeysEmpty(es: seq<Entry>)
    ensures Keys(es) == {} <==> es == []
  {
    if es != [] {
      assert es[0] in es;
      assert es[0].key in Keys(es);
    }
  }

  /** isObject() holds exactly for a node tagged object that holds at least one entry. */
  lemma IsObjectIffEntries(n: Node)
    ensures IsObject(n) <==> n.valueType == ObjectType && |n.content| > 0
  {
    KeysEmpty(n.content);
  }

  /** The contract documented for isEmpty() and isNull(): an empty node has size 0, is null, has no
      keys, is neither an object nor atomic, and lists nothing. */
  lemma EmptyContract(n: Node)
    ensures IsNull(n) <==> IsEmpty(n)
    ensures IsEmpty(n) ==> Size(n) == 0 && KeySet(n) == {} && !IsObject(n) && !IsAtomic(n)
  {
  }

  /** A key the node does not hold reads as the sentinel, so getString(property, d) answers d and
      getLong(property, d) answers d. */
  lemma MissingKeyDefaults(n: Node, property: string, ds: Option<string>, dl: Long)
    requires property !in Keys(n.content)
    ensures GetKey(n, property) == NULL
    ensures GetStringOr(n, property, ds) == Ok(ds)
    ensures GetLongOr(n, property, dl) == Ok(dl)
  {
    LookupMiss(n.content, property);
  }

  /** The default of getString(property, d) matters exactly when the property's string is null:
      two defaults give the same answer if and only if they are equal or that string is not null. */
  lemma GetStringOrDefaultUse(n: Node, property: string, d1: Option<string>, d2: Option<string>)
    ensures GetStringOr(n, property, d1) == GetStringOr(n, property, d2) <==>
              d1 == d2 || GetString(GetKey(n, property)) != Ok(None)
  {
  }

  /** The default of getLong(property, d) matters exactly when the property's data is empty: two
      defaults give the same answer if and only if they are equal or the data holds something. */
  lemma GetLongOrDefaultUse(n: Node, property: string, d1: Long, d2: Long)
    ensures GetLongOr(n, property, d1) == GetLongOr(n, property, d2) <==>
              d1 == d2 || !IsEmpty(GetKey(n, property))
  {
  }
}
