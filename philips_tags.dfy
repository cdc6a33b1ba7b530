/**
 * The attribute flattener of the iSyntax tile source (`philipsTag`): a
 * recursive walk over the dictionary form of the embedded XML document that
 * collects each DataObject's named Attributes into one record, converting
 * values by their `PMSVR` type tag.
 *
 * The input is the output of the external `etreeToDict` step, reduced to the
 * keys `philipsTag` reads. A key the walk indexes but the document lacks is a
 * `MissingKey` failure, as Python's `KeyError` is.
 */
module PhilipsTags {
  import opened Wrappers
  import opened Text

  /** A child key of the dictionary form holds one value, or a list when the element repeats. */
  datatype Many<T> = One(item: T) | List(items: seq<T>)

  /** A dictionary whose `DataObject` key holds the DataObjects (the root, or an `Array` element). */
  datatype Container = Container(dataObjects: Option<Many<DataObject>>)

  /** A `DataObject` element; its `Attribute` key holds the attributes. */
  datatype DataObject = DataObject(attributes: Option<Many<Attribute>>)

  /** An `Attribute` element: its `Name` and `PMSVR` XML attributes, an `Array` child, its text. */
  datatype Attribute = Attribute(
    name: Option<string>,
    nested: Option<Container>,
    text: Option<string>,
    pmsvr: Option<string>)

  /** A flattened value. The binary payloads keep their base64 text: decoding is not modelled. */
  datatype Value =
    | Str(s: string)
    | Bytes(base64: string)          // base64.b64decode(text)
    | BarcodeText(base64: string)    // the decoded barcode as text, or the raw text when not text
    | Preview(base64: string)        // repr() of the first 200 decoded bytes, in truncate mode
    | Records(records: seq<map<string, Value>>)
    | Int(i: int)
    | IntList(ints: seq<int>)
    | StrList(strs: seq<string>)
    | Double(literal: string)        // float(text); floating point is not modelled
    | DoubleList(literals: seq<string>)

  type Record = map<string, Value>

  datatype TagError =
    | MissingKey(key: string)   // KeyError
    | UnboundValue              // UnboundLocalError: no value yet for a bare attribute
    | NotText                   // a string conversion applied to a value that is not a string
    | NotAnInteger(text: string)  // ValueError from int()

  const BinaryKeys: set<string> :=
    {"PIM_DP_UFS_BARCODE", "PIM_DP_IMAGE_DATA", "DICOM_ICCPROFILE", "UFS_IMAGE_BLOCK_HEADER_TABLE"}
  const BarcodeKey: string := "PIM_DP_UFS_BARCODE"
  const IntKinds: set<string> := {"IInt16", "IInt32", "IUInt16", "IUInt32"}
  const IntArrayKinds: set<string> := {"IInt16Array", "IInt32Array", "IUInt16Array", "IUInt32Array"}

  /** Treats a lone element as a one-element list. */
  function ListOf<T>(m: Many<T>): (r: seq<T>)
    ensures m.One? ==> r == [m.item]
    ensures forall x :: x in r ==> x < m
  {
    match m
    case One(x) => [x]
    case List(xs) => xs
  }

  /** The value an attribute's text stands for, before its type tag is applied. */
  function TextValue(key: string, text: string, truncate: bool): Value {
    if key !in BinaryKeys then Str(text)
    else if key == BarcodeKey then BarcodeText(text)
    else if truncate then Preview(text)
    else Bytes(text)
  }

  /** Applies the conversion the `PMSVR` type tag selects. */
  function Convert(kind: Option<string>, v: Value): (r: Result<Value, TagError>)
    ensures kind.Some? && kind.value in IntKinds && r.Success? ==> r.value.Int?
    ensures kind.Some? && kind.value in IntArrayKinds && r.Success? ==> r.value.IntList?
    ensures kind == Some("IStringArray") && r.Success? ==> r.value.StrList?
    ensures kind == Some("IDouble") && r.Success? ==> r.value.Double?
    ensures (kind.None? || (kind.value !in IntKinds + IntArrayKinds + {"IStringArray", "IDouble", "IDoubleArray"}))
      ==> r == Success(v)
  {
    if kind == Some("IStringArray") then
      (if v.Str? then Success(StrList(SplitOn(StripChar(v.s, '"'), ItemSeparator))) else Failure(NotText))
    else if kind == Some("IDouble") then
      (match v
       case Str(s) => Success(Double(s))
       case Double(_) => Success(v)
       case _ => Failure(NotText))
    else if kind == Some("IDoubleArray") then
      (if v.Str? then Success(DoubleList(StripEach(SplitWhitespace(v.s)))) else Failure(NotText))
    else if kind.Some? && kind.value in IntKinds then
      (match v
       case Str(s) => (match ParseInt(s) case Some(n) => Success(Int(n)) case None => Failure(NotAnInteger(s)))
       case Int(n) => Success(Int(n))
       case _ => Failure(NotText))
    else if kind.Some? && kind.value in IntArrayKinds then
      (if v.Str? then
         (match ParseInts(SplitWhitespace(v.s))
          case Some(ns) => Success(IntList(ns))
          case None => Failure(NotAnInteger(v.s)))
       else Failure(NotText))
    else Success(v)
  }

  function StripEach(words: seq<string>): (r: seq<string>)
    ensures |r| == |words|
  {
    if words == [] then [] else [StripChar(words[0], '"')] + StripEach(words[1..])
  }

  /**
   * `philipsTag(dict, truncate)`: one record per DataObject that keeps at
   * least one attribute, in document order.
   */
  function PhilipsTag(c: Container, truncate: bool): (r: Result<seq<Record>, TagError>)
    ensures r.Success? ==> forall i :: 0 <= i < |r.value| ==> |r.value[i]| > 0
    decreases c, 1, 0
  {
    match c.dataObjects
    case None => Failure(MissingKey("DataObject"))
    case Some(m) =>
      var objs :- TagObjects(ListOf(m), truncate, None, c);
      Success(objs.0)
  }

  /**
   * The loop over DataObjects. `value` is the Python local `value`, which
   * keeps the last attribute's value across iterations (None while unbound).
   */
  function TagObjects(dobjs: seq<DataObject>, truncate: bool, value: Option<Value>, ghost owner: Container)
    : (r: Result<(seq<Record>, Option<Value>), TagError>)
    requires forall d :: d in dobjs ==> d < owner
    ensures r.Success? ==> |r.value.0| <= |dobjs|
    ensures r.Success? ==> forall i :: 0 <= i < |r.value.0| ==> |r.value.0[i]| > 0
    decreases owner, 0, |dobjs|
  {
    if dobjs == [] then Success(([], value))
    else
      assert dobjs[0] in dobjs;
      assert forall d :: d in dobjs[1..] ==> d in dobjs;
      match dobjs[0].attributes
      case None => Failure(MissingKey("Attribute"))
      case Some(m) =>
        var first :- TagEntries(ListOf(m), truncate, value, map[], dobjs[0]);
        var rest :- TagObjects(dobjs[1..], truncate, first.1, owner);
        Success(((if |first.0| > 0 then [first.0] else []) + rest.0, rest.1))
  }

  /** The loop over one DataObject's attributes, adding to the record `sub`. */
  function TagEntries(entries: seq<Attribute>, truncate: bool, value: Option<Value>, sub: Record,
                      ghost owner: DataObject)
    : (r: Result<(Record, Option<Value>), TagError>)
    requires forall a :: a in entries ==> a < owner
    ensures r.Success? ==> sub.Keys <= r.value.0.Keys
    ensures r.Success? ==> forall k :: k in r.value.0 && k !in sub ==>
      exists e :: e in entries && e.name == Some(k)
    ensures r.Success? ==> forall e :: e in entries && !Dropped(e, truncate) ==>
      e.name.Some? && e.name.value in r.value.0
    decreases owner, 0, |entries|
  {
    if entries == [] then Success((sub, value))
    else
      assert entries[0] in entries;
      assert forall e :: e in entries[1..] ==> e in entries;
      assert forall e :: e in entries ==> e == entries[0] || e in entries[1..];
      var first :- TagEntry(entries[0], truncate, value, sub);
      TagEntries(entries[1..], truncate, first.1, first.0, owner)
  }

  /** An `Array` attribute that flattens to no record: the loop skips it with `continue`. */
  predicate Dropped(e: Attribute, truncate: bool)
    decreases e, 0, 1
  {
    e.nested.Some? && PhilipsTag(e.nested.value, truncate) == Success([])
  }

  /** One iteration of the attribute loop: the new record and the new `value`. */
  function TagEntry(e: Attribute, truncate: bool, value: Option<Value>, sub: Record)
    : (r: Result<(Record, Option<Value>), TagError>)
    ensures r.Success? ==> e.name.Some? && sub.Keys <= r.value.0.Keys <= sub.Keys + {e.name.value}
    ensures r.Success? ==> forall k :: k in sub && k != e.name.value ==> r.value.0[k] == sub[k]
    ensures r.Success? && Dropped(e, truncate) ==> r.value == (sub, Some(Records([])))
    ensures r.Success? && !Dropped(e, truncate) ==>
      var key := e.name.value;
      && key in r.value.0
      && r.value.1 == Some(r.value.0[key])
      && (e.nested.Some? ==>
            PhilipsTag(e.nested.value, truncate).Success? &&
            Convert(e.pmsvr, Records(PhilipsTag(e.nested.value, truncate).value)) == Success(r.value.0[key]))
      && (e.nested.None? && e.text.Some? ==>
            Convert(e.pmsvr, TextValue(key, e.text.value, truncate)) == Success(r.value.0[key]))
      && (e.nested.None? && e.text.None? ==>
            value.Some? && Convert(e.pmsvr, value.value) == Success(r.value.0[key]))
    decreases e, 0, 2
  {
    match e.name
    case None => Failure(MissingKey("Name"))
    case Some(key) =>
      if e.nested.Some? then
        var recs :- PhilipsTag(e.nested.value, truncate);
        if |recs| == 0 then Success((sub, Some(Records(recs))))
        else Store(key, Records(recs), e.pmsvr, sub)
      else if e.text.Some? then
        Store(key, TextValue(key, e.text.value, truncate), e.pmsvr, sub)
      else
        match value
        case None => Failure(UnboundValue)
        case Some(v) => Store(key, v, e.pmsvr, sub)
  }

  /** Converts the value and stores it under `key`; the converted value becomes the new `value`. */
  function Store(key: string, v: Value, kind: Option<string>, sub: Record)
    : (r: Result<(Record, Option<Value>), TagError>)
    ensures r.Success? ==> key in r.value.0 && r.value.1 == Some(r.value.0[key])
    ensures r.Success? ==> r.value.0 == sub[key := r.value.0[key]]
    ensures r.Success? <==> Convert(kind, v).Success?
    ensures r.Success? ==> r.value.0[key] == Convert(kind, v).value
  {
    var converted :- Convert(kind, v);
    Success((sub[key := converted], Some(converted)))
  }

  // ---------------------------------------------------------------------------
  // What the flattening promises

  /** The ghost bound that justifies the recursion does not change the result. */
  lemma {:induction false} TagObjectsAnyOwner(dobjs: seq<DataObject>, truncate: bool, value: Option<Value>,
                                              o1: Container, o2: Container)
    requires forall d :: d in dobjs ==> d < o1 && d < o2
    ensures TagObjects(dobjs, truncate, value, o1) == TagObjects(dobjs, truncate, value, o2)
    decreases |dobjs|
  {
    if dobjs != [] && dobjs[0].attributes.Some? {
      assert forall d :: d in dobjs[1..] ==> d in dobjs;
      var m := dobjs[0].attributes.value;
      var first := TagEntries(ListOf(m), truncate, value, map[], dobjs[0]);
      if first.Success? {
        TagObjectsAnyOwner(dobjs[1..], truncate, first.value.1, o1, o2);
      }
    }
  }

  /** A lone DataObject is flattened exactly as a one-element list holding it. */
  lemma LoneObject(d: DataObject, truncate: bool)
    ensures PhilipsTag(Container(Some(One(d))), truncate) == PhilipsTag(Container(Some(List([d]))), truncate)
  {
    TagObjectsAnyOwner([d], truncate, None, Container(Some(One(d))), Container(Some(List([d]))));
  }

  /**
   * The DataObjects are flattened in document order: the records of `a + b`
   * are those of `a` followed by those of `b`, with the `value` local carried
   * from the last attribute of `a` into `b`, and the first failure wins.
   */
  lemma {:induction false} TagObjectsAppend(a: seq<DataObject>, b: seq<DataObject>, truncate: bool,
                                            value: Option<Value>, owner: Container)
    requires forall d :: d in a ==> d < owner
    requires forall d :: d in b ==> d < owner
    ensures TagObjects(a + b, truncate, value, owner) ==
      match TagObjects(a, truncate, value, owner)
      case Failure(e) => Failure(e)
      case Success(ra) =>
        match TagObjects(b, truncate, ra.1, owner)
        case Failure(e) => Failure(e)
        case Success(rb) => Success((ra.0 + rb.0, rb.1))
    decreases |a|, 1
  {
    if a == [] {
      assert a + b == b;
      var rb := TagObjects(b, truncate, value, owner);
      if rb.Success? {
        assert [] + rb.value.0 == rb.value.0;
      }
    } else {
      assert (a + b)[0] == a[0];
      assert (a + b)[1..] == a[1..] + b;
      if a[0].attributes.Some? &&
         TagEntries(ListOf(a[0].attributes.value), truncate, value, map[], a[0]).Success? {
        TagObjectsAppendHead(a, b, truncate, value, owner);
      }
    }
  }

  /** The step of `TagObjectsAppend` where the first DataObject of `a` flattens. */
  lemma {:induction false} TagObjectsAppendHead(a: seq<DataObject>, b: seq<DataObject>, truncate: bool,
                                                value: Option<Value>, owner: Container)
    requires forall d :: d in a ==> d < owner
    requires forall d :: d in b ==> d < owner
    requires a != [] && a[0].attributes.Some?
    requires TagEntries(ListOf(a[0].attributes.value), truncate, value, map[], a[0]).Success?
    ensures TagObjects(a + b, truncate, value, owner) ==
      match TagObjects(a, truncate, value, owner)
      case Failure(e) => Failure(e)
      case Success(ra) =>
        match TagObjects(b, truncate, ra.1, owner)
        case Failure(e) => Failure(e)
        case Success(rb) => Success((ra.0 + rb.0, rb.1))
    decreases |a|, 0
  {
    assert (a + b)[0] == a[0];
    assert (a + b)[1..] == a[1..] + b;
    assert forall d :: d in a[1..] ==> d in a;
    var first := TagEntries(ListOf(a[0].attributes.value), truncate, value, map[], a[0]);
    TagObjectsAppend(a[1..], b, truncate, first.value.1, owner);
    var head: seq<Record> := if |first.value.0| > 0 then [first.value.0] else [];
    var ra := TagObjects(a[1..], truncate, first.value.1, owner);
    if ra.Success? {
      var rb := TagObjects(b, truncate, ra.value.1, owner);
      if rb.Success? {
        ConcatAssociative(head, ra.value.0, rb.value.0);
      }
    }
  }

  lemma ConcatAssociative<T>(x: seq<T>, y: seq<T>, z: seq<T>)
    ensures x + (y + z) == (x + y) + z
  {
  }

  /**
   * A DataObject whose attributes give a non-empty record is kept: its record
   * follows the records of the DataObjects before it, flattened with the
   * `value` they leave behind.
   */
  lemma TagObjectsKeeps(a: seq<DataObject>, d: DataObject, b: seq<DataObject>, truncate: bool,
                        value: Option<Value>, owner: Container)
    requires forall x :: x in a ==> x < owner
    requires d < owner
    requires forall x :: x in b ==> x < owner
    ensures var r := TagObjects(a + [d] + b, truncate, value, owner);
      var before := TagObjects(a, truncate, value, owner);
      r.Success? ==>
        && before.Success? && d.attributes.Some?
        && var rec := TagEntries(ListOf(d.attributes.value), truncate, before.value.1, map[], d);
        && rec.Success?
        && (|rec.value.0| > 0 ==> |before.value.0| < |r.value.0| && r.value.0[|before.value.0|] == rec.value.0)
        && forall e :: e in ListOf(d.attributes.value) && !Dropped(e, truncate) ==>
             e.name.Some? && |before.value.0| < |r.value.0| && e.name.value in r.value.0[|before.value.0|]
  {
    assert a + [d] + b == a + ([d] + b);
    assert forall x :: x in [d] + b ==> x < owner;
    TagObjectsAppend(a, [d] + b, truncate, value, owner);
    var before := TagObjects(a, truncate, value, owner);
    if before.Success? {
      TagObjectsFirst(d, b, truncate, before.value.1, owner);
      var rest := TagObjects([d] + b, truncate, before.value.1, owner);
      if rest.Success? && |rest.value.0| > 0 {
        IndexAfter(before.value.0, rest.value.0);
      }
    }
  }

  /** The first DataObject's record, when it is not empty, heads the flattened list. */
  lemma TagObjectsFirst(d: DataObject, b: seq<DataObject>, truncate: bool, value: Option<Value>, owner: Container)
    requires d < owner
    requires forall x :: x in b ==> x < owner
    ensures forall x :: x in [d] + b ==> x < owner
    ensures var r := TagObjects([d] + b, truncate, value, owner);
      r.Success? ==>
        && d.attributes.Some?
        && var rec := TagEntries(ListOf(d.attributes.value), truncate, value, map[], d);
        && rec.Success?
        && (|rec.value.0| > 0 ==> |r.value.0| > 0 && r.value.0[0] == rec.value.0)
  {
    assert ([d] + b)[0] == d;
    assert ([d] + b)[1..] == b;
  }

  lemma IndexAfter<T>(x: seq<T>, y: seq<T>)
    requires |y| > 0
    ensures |x| < |x + y| && (x + y)[|x|] == y[0]
  {
  }

  /**
   * Every attribute of the `i`-th DataObject that is not a skipped empty
   * `Array` has its name stored in that DataObject's record, which `philipsTag`
   * returns after the records of the DataObjects before it.
   */
  lemma PhilipsTagKeeps(c: Container, truncate: bool, i: nat)
    requires c.dataObjects.Some? && i < |ListOf(c.dataObjects.value)|
    ensures var objs := ListOf(c.dataObjects.value);
      var r := PhilipsTag(c, truncate);
      r.Success? ==>
        var before := TagObjects(objs[..i], truncate, None, c);
        && before.Success? && objs[i].attributes.Some?
        && forall e :: e in ListOf(objs[i].attributes.value) && !Dropped(e, truncate) ==>
             && e.name.Some?
             && |before.value.0| < |r.value|
             && e.name.value in r.value[|before.value.0|]
  {
    var objs := ListOf(c.dataObjects.value);
    if PhilipsTag(c, truncate).Success? {
      assert PhilipsTag(c, truncate).value == TagObjects(objs, truncate, None, c).value.0;
      var before, after := objs[..i], objs[i + 1..];
      assert objs == before + [objs[i]] + after;
      assert forall d :: d in before ==> d in objs;
      assert forall d :: d in after ==> d in objs;
      TagObjectsKeeps(before, objs[i], after, truncate, None, c);
    }
  }

  /** An `Array` that flattens to no record stores nothing, and leaves the empty list as `value`. */
  lemma EmptyArrayDropped(e: Attribute, truncate: bool, value: Option<Value>, sub: Record)
    requires e.name.Some? && e.nested.Some?
    requires PhilipsTag(e.nested.value, truncate) == Success([])
    ensures TagEntry(e, truncate, value, sub) == Success((sub, Some(Records([]))))
  {
  }

  /**
   * An attribute with neither an `Array` nor text stores the value the
   * previous attribute left, converted by its own type tag; before any
   * attribute has set one, Python raises `UnboundLocalError`.
   */
  lemma BareAttributeReuses(e: Attribute, truncate: bool, value: Option<Value>, sub: Record)
    requires e.name.Some? && e.nested.None? && e.text.None?
    ensures value.None? ==> TagEntry(e, truncate, value, sub) == Failure(UnboundValue)
    ensures value.Some? && Convert(e.pmsvr, value.value).Success? ==>
      var v := Convert(e.pmsvr, value.value).value;
      TagEntry(e, truncate, value, sub) == Success((sub[e.name.value := v], Some(v)))
  {
  }

  /**
   * A bare `IDouble` attribute after a floating-point one stores the same
   * number: `float()` of a float gives it back.
   */
  lemma BareDoubleReusesDouble(key: string, text: string, sub: Record, truncate: bool)
    ensures TagEntry(Attribute(Some(key), None, None, Some("IDouble")), truncate, Some(Double(text)), sub)
      == Success((sub[key := Double(text)], Some(Double(text))))
  {
    assert "IDouble" !in IntKinds + IntArrayKinds by {
      assert "IDouble"[1] == 'D';
    }
  }

  /** Truncation changes only the binary attributes that are neither the barcode nor text. */
  lemma TruncateOnlyBinary(e: Attribute, value: Option<Value>, sub: Record)
    requires e.nested.None?
    requires e.name.Some? && e.name.value !in BinaryKeys - {BarcodeKey}
    ensures TagEntry(e, true, value, sub) == TagEntry(e, false, value, sub)
  {
  }

  /** The integer type tags select neither a string nor a floating-point conversion. */
  lemma IntKindsDistinct(kind: string)
    requires kind in IntKinds + IntArrayKinds
    ensures kind != "IStringArray" && kind != "IDouble" && kind != "IDoubleArray"
    ensures kind in IntArrayKinds ==> kind !in IntKinds
  {
    assert kind[0] == 'I';
    if kind in IntArrayKinds {
      assert |kind| == 11 || |kind| == 12;
      assert kind[1] == 'I' || kind[1] == 'U';
    } else {
      assert |kind| == 6 || |kind| == 7;
    }
  }

  /** A text attribute with no type tag, outside the binary keys, stores its text as it is. */
  lemma PlainTextAttribute(key: string, text: string, value: Option<Value>, sub: Record, truncate: bool)
    requires key !in BinaryKeys
    ensures TagEntry(Attribute(Some(key), None, Some(text), None), truncate, value, sub)
      == Success((sub[key := Str(text)], Some(Str(text))))
  {
  }

  /** An integer attribute stores the integer its decimal text spells. */
  lemma IntAttribute(key: string, kind: string, n: int, value: Option<Value>, sub: Record, truncate: bool)
    requires key !in BinaryKeys && kind in IntKinds
    ensures TagEntry(Attribute(Some(key), None, Some(ShowInt(n)), Some(kind)), truncate, value, sub)
      == Success((sub[key := Int(n)], Some(Int(n))))
  {
    IntKindsDistinct(kind);
    ParseShowInt(n);
  }

  /** An integer-array attribute stores the integers its space-separated text spells. */
  lemma IntArrayAttribute(key: string, kind: string, ns: seq<int>, value: Option<Value>, sub: Record,
                          truncate: bool)
    requires key !in BinaryKeys && kind in IntArrayKinds
    ensures TagEntry(Attribute(Some(key), None, Some(JoinSpaces(ShowInts(ns))), Some(kind)), truncate, value, sub)
      == Success((sub[key := IntList(ns)], Some(IntList(ns))))
  {
    ConvertIntArray(kind, ns);
  }

  lemma ConvertIntArray(kind: string, ns: seq<int>)
    requires kind in IntArrayKinds
    ensures Convert(Some(kind), Str(JoinSpaces(ShowInts(ns)))) == Success(IntList(ns))
  {
    IntKindsDistinct(kind);
    IntArrayRoundTrip(ns);
    var text := JoinSpaces(ShowInts(ns));
    assert ParseInts(SplitWhitespace(text)) == Some(ns);
    assert Some(kind) != Some("IStringArray") && Some(kind) != Some("IDouble") && Some(kind) != Some("IDoubleArray");
  }

  /** A string-array attribute stores the items its `"a" "b"` text quotes. */
  lemma StringArrayAttribute(key: string, items: seq<string>, value: Option<Value>, sub: Record, truncate: bool)
    requires key !in BinaryKeys
    requires items != [] && items[0] != [] && items[|items| - 1] != []
    requires forall i :: 0 <= i < |items| ==> Unquoted(items[i])
    ensures TagEntry(Attribute(Some(key), None, Some(QuoteItems(items)), Some("IStringArray")), truncate, value, sub)
      == Success((sub[key := StrList(items)], Some(StrList(items))))
  {
    StringArrayRoundTrip(items);
  }
}
