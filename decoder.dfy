/**
 * The decoder (ReadObjectValue) and the three resolvers that choose the declared type
 * an item is read under (FindArrayOrListItemType, FindDictionaryItemType,
 * FindDictionaryType): pure functions first, then the procedure of the source, with its
 * loops, proved to compute them.
 */
module Decoder {
  import opened Wrappers
  import opened Grammar
  import opened Numbers
  import opened TypeTags
  import opened Values
  import opened Splitter

  /**
   * Substring(start.Length, Length - start.Length - end.Length) for one-character
   * markers: the text without its first and last character. Which characters they are
   * is not checked.
   */
  function StripMarkers(t: string): (r: Result<string>)
    ensures r.Ok? <==> |t| >= 2
    ensures r.Ok? ==> |r.value| == |t| - 2 && t == [t[0]] + r.value + [t[|t| - 1]]
    ensures r.Err? ==> r.error == BadSubstring
  {
    if |t| < 2 then Err(BadSubstring) else Ok(t[1..|t| - 1])
  }

  /** The i-th part of a split, as List<string>[i] reads it. */
  function Part(parts: seq<string>, i: nat): (r: Result<string>)
    ensures r.Ok? <==> i < |parts|
    ensures r.Ok? ==> r.value == parts[i]
    ensures r.Err? ==> r.error == IndexOutOfRange
  {
    if i < |parts| then Ok(parts[i]) else Err(IndexOutOfRange)
  }

  /** Every part is shorter than bound: the text the parts come from is longer still. */
  predicate Shorter(parts: seq<string>, bound: nat) {
    forall i :: 0 <= i < |parts| ==> |parts[i]| < bound
  }

  /** The list types whose element type is not known: ArrayList, Array and List<>. */
  predicate IsErasedList(ty: Ty) {
    ty == TArrayList || ty == TArray || ty == TListDef
  }

  /** The generic type definitions List<> and Dictionary<,>, which cannot be instantiated. */
  predicate IsOpenGeneric(ty: Ty) {
    ty == TListDef || ty == TDictDef
  }

  /**
   * The corrected form of lines 546-557: the type a list-valued item nested in an
   * erased map is read under, once the type of its first element is known. An array
   * stays Array, an ArrayList stays ArrayList, a List<> is made generic over the
   * element type.
   */
  function NestedListType(t: Ty, listItemType: Ty): (r: Result<Ty>)
    requires IsErasedList(t)
    ensures r.Ok?
    ensures t == TArray || t == TArrayList ==> r.value == t
    ensures t == TListDef ==> r.value == TList(listItemType)
  {
    if t == TArray then Ok(TArray)
    else if t == TArrayList then Ok(TArrayList)
    else Ok(TList(listItemType))
  }

  /**
   * Lines 546-557 as written: the second test looks at the element type instead of the
   * list type, so a non-generic ArrayList is made generic (MakeGenericType throws) and
   * a List<ArrayList> turns into an ArrayList.
   */
  function NestedListTypeAsWritten(t: Ty, listItemType: Ty): (r: Result<Ty>)
    requires IsErasedList(t)
    ensures t == TArray ==> r == Ok(TArray)
    ensures t != TArray && listItemType == TArrayList ==> r == Ok(TArrayList)
    ensures t == TArrayList && listItemType != TArrayList ==> r == Err(CannotCreate)
    ensures t == TListDef && listItemType != TArrayList ==> r == Ok(TList(listItemType))
  {
    if t == TArray then Ok(TArray)
    else if listItemType == TArrayList then Ok(TArrayList)
    else if t == TListDef then Ok(TList(listItemType))
    else Err(CannotCreate)
  }

  /**
   * FindArrayOrListItemType: the type an item of a collection of type ty is read under.
   * For ArrayList, Array and List<> it is the item's own tag, where a list tag is made
   * List<T> by looking at the first element of the nested list and a map tag is
   * resolved by FindDictionaryType. For a typed List<E> or E[] a list or map tag gives
   * E, an Array tag gives E when ty is a List<E> with E other than object (its Item
   * indexer), and any other tag is taken as it is.
   */
  function FindArrayOrListItemType(ty: Ty, item: string): (r: Result<Ty>)
    requires IsList(ty)
    ensures r.Ok? ==> SplitMemberItemString(item).Ok?
    ensures r.Ok? && IsErasedList(ty) ==>
      var tag := TypeOf(SplitMemberItemString(item).value.1);
      !IsOpenGeneric(r.value)
      && (tag == TListDef ==> r.value.TList?)
      && (tag == TDictDef ==> r.value.TDict?)
      && (!IsOpenGeneric(tag) ==> r.value == tag)
    decreases |item|, 0
  {
    var member :- SplitMemberItemString(item);
    var text := member.0;
    var listItemType := TypeOf(member.1);
    if IsErasedList(ty) then
      if listItemType == TListDef then
        var inner :- StripMarkers(text);
        var parts :- Split(inner, CollectionItemSeparator);
        SplitSizes(inner, CollectionItemSeparator);
        var first :- Part(parts, 0);
        var e :- FindArrayOrListItemType(TListDef, first);
        Ok(TList(e))
      else if listItemType == TDictDef then
        var inner :- StripMarkers(text);
        FindDictionaryType(TDictDef, inner)
      else
        Ok(listItemType)
    else
      Ok(TypedItemTypeOf(ty, listItemType))
  }

  /**
   * The typed branch of FindArrayOrListItemType: a list or map tag gives the element
   * type E, an Array tag gives E in a List<E> with E other than object, any other tag
   * is taken as it is.
   */
  function TypedItemTypeOf(ty: Ty, listItemType: Ty): Ty
    requires IsList(ty) && !IsErasedList(ty)
  {
    var t := if listItemType == TListDef || listItemType == TDictDef then ty.elem else listItemType;
    if t == TArray && ty.TList? && ty.elem != TObject then ty.elem else t
  }

  /**
   * FindDictionaryItemType: the type the key (isKey) or the value of a map entry is
   * read under. For a typed Dictionary<K, V> it is K or V whatever the item's tag; for
   * Dictionary<,> it is the item's own tag, a list tag resolved by
   * NestedListTypeAsWritten after looking at the first element and a map tag by
   * FindDictionaryType.
   */
  function FindDictionaryItemType(dictionaryType: Ty, item: string, isKey: bool): (r: Result<Ty>)
    requires IsDict(dictionaryType)
    ensures dictionaryType.TDict? ==>
      r == if SplitMemberItemString(item).Ok? then Ok(if isKey then dictionaryType.key else dictionaryType.value)
           else Err(SplitMemberItemString(item).error)
    ensures r.Ok? && dictionaryType == TDictDef ==> !IsOpenGeneric(r.value)
    decreases |item|, 1
  {
    var member :- SplitMemberItemString(item);
    if dictionaryType == TDictDef then
      FindErasedEntryItemType(TypeOf(member.1), member.0)
    else
      Ok(if isKey then dictionaryType.key else dictionaryType.value)
  }

  /**
   * The Dictionary<,> case of FindDictionaryItemType, for an item of tag type t and
   * value text value, as written: a nested list goes through NestedListTypeAsWritten.
   */
  function FindErasedEntryItemType(t: Ty, value: string): (r: Result<Ty>)
    ensures r.Ok? ==> !IsOpenGeneric(r.value)
    ensures r.Ok? && IsDict(t) ==> r.value.TDict?
    ensures r.Ok? && t == TArrayList ==> r.value == TArrayList
    decreases |value|, 0
  {
    if IsErasedList(t) then
      var sub :- StripMarkers(value);
      var parts :- Split(sub, CollectionItemSeparator);
      SplitSizes(sub, CollectionItemSeparator);
      var first :- Part(parts, 0);
      var listItemType :- FindArrayOrListItemType(t, first);
      NestedListTypeAsWritten(t, listItemType)
    else if IsDict(t) then
      var sub :- StripMarkers(value);
      FindDictionaryType(TDictDef, sub)
    else
      Ok(t)
  }

  /**
   * FindErasedEntryItemType with the nested-list branch corrected (NestedListType): a
   * nested Array or ArrayList keeps its own type, a nested List<> gets its element
   * type from its first item.
   */
  function FindErasedEntryItemTypeCorrected(t: Ty, value: string): (r: Result<Ty>)
    ensures r.Ok? && (t == TArray || t == TArrayList) ==> r.value == t
    ensures r.Ok? && t == TListDef ==> r.value.TList?
    ensures r.Ok? ==> !IsOpenGeneric(r.value)
  {
    if IsErasedList(t) then
      var sub :- StripMarkers(value);
      var parts :- Split(sub, CollectionItemSeparator);
      var first :- Part(parts, 0);
      var listItemType :- FindArrayOrListItemType(t, first);
      NestedListType(t, listItemType)
    else if IsDict(t) then
      var sub :- StripMarkers(value);
      FindDictionaryType(TDictDef, sub)
    else
      Ok(t)
  }

  /**
   * FindDictionaryType: Dictionary<K, V> with K and V found from the first two parts of
   * kv split at "::". The caller hands it the whole text between the braces.
   */
  function FindDictionaryType(dictionaryType: Ty, kv: string): (r: Result<Ty>)
    requires IsDict(dictionaryType)
    ensures r.Ok? ==> r.value.TDict? && Split(kv, DictionaryKVSeparator).Ok? && |Split(kv, DictionaryKVSeparator).value| >= 2
    ensures r.Ok? && dictionaryType == TDictDef ==> !IsOpenGeneric(r.value.key) && !IsOpenGeneric(r.value.value)
    ensures r.Ok? && dictionaryType.TDict? ==> r.value == dictionaryType
    decreases |kv|, 2
  {
    var parts :- Split(kv, DictionaryKVSeparator);
    SplitSizes(kv, DictionaryKVSeparator);
    var k :- Part(parts, 0);
    var keyType :- FindDictionaryItemType(dictionaryType, k, true);
    var w :- Part(parts, 1);
    var valueType :- FindDictionaryItemType(dictionaryType, w, false);
    Ok(TDict(keyType, valueType))
  }

  /**
   * ReadObjectValue as a function: the value read from s under the declared type ty, or
   * the exception. An enumeration is read as its int, which the slot it is stored in
   * turns into the enumeration (Store); float, double and DateTime payloads are kept as
   * text; a type outside every branch reads as null.
   */
  function Decode(ty: Ty, s: string): (r: Result<Value>)
    ensures r.Ok? ==> ReadsAs(ty, r.value)
    decreases |s|, 2, 0
  {
    if ty == TInt || ty.TEnum? then
      var i :- ToInt32(s);
      Ok(VInt(i))
    else if ty == TBool then
      var i :- ToInt32(s);
      Ok(VBool(i > 0))
    else if ty == TFloat then
      var t :- StripMarkers(s);
      Ok(VFloat(t))
    else if ty == TDouble then
      var t :- StripMarkers(s);
      Ok(VDouble(t))
    else if ty == TString then
      var t :- StripMarkers(s);
      Ok(VString(t))
    else if ty == TLong then
      var l :- ToInt64(s);
      Ok(VLong(l))
    else if ty == TDateTime then
      Ok(VDateTime(s))
    else if IsList(ty) then
      DecodeCollection(ty, s)
    else if IsDict(ty) then
      DecodeMap(ty, s)
    else
      Ok(VNull)
  }

  /**
   * The shape of a value Decode returns under ty: a 32-bit int under int and under an
   * enumeration (the slot it is stored in turns it into the enumeration), a 64-bit
   * long under long, the scalar of the declared type otherwise; a collection or map of
   * the declared kind whose items the declared slots can hold; nothing under List<> or
   * Dictionary<,>; null under a type outside every branch.
   */
  predicate ReadsAs(ty: Ty, v: Value) {
    if ty == TInt || ty.TEnum? then v.VInt? && IsInt32(v.i)
    else if ty == TBool then v.VBool?
    else if ty == TFloat then v.VFloat?
    else if ty == TDouble then v.VDouble?
    else if ty == TString then v.VString?
    else if ty == TLong then v.VLong? && IsInt64(v.l)
    else if ty == TDateTime then v.VDateTime?
    else if IsOpenGeneric(ty) then false
    else if IsList(ty) then CollectionReadsAs(ty, v)
    else if ty.TDict? then
      v.VDict? && v.keyTy == ty.key && v.valueTy == ty.value
      && forall e :: e in v.entries ==> Assignable(ty.key, e.key) && Assignable(ty.value, e.value)
    else v.VNull?
  }

  /**
   * A collection read under ty: an ArrayList under ArrayList, a List<E> under List<E>,
   * a non-empty array under an array type, each item held by its slot.
   */
  predicate CollectionReadsAs(ty: Ty, v: Value)
    requires IsList(ty)
  {
    if ty == TArrayList then v.VArrayList?
    else if ty.TList? then v.VList? && v.listElem == ty.elem && forall z :: z in v.items ==> Assignable(ty.elem, z)
    else v.VArray? && v.items != [] && forall z :: z in v.items ==> Assignable(v.arrayElem, z)
  }

  /**
   * The IList branch: an array has the element type of its first item and one slot per
   * part; an ArrayList or List<E> is created empty and the items are added; List<> cannot
   * be created.
   */
  function DecodeCollection(ty: Ty, s: string): (r: Result<Value>)
    requires IsList(ty)
    ensures r.Ok? ==> !ty.TListDef? && CollectionReadsAs(ty, r.value)
    ensures ty.TListDef? ==> r.Err?
    decreases |s|, 1, 0
  {
    var inner :- StripMarkers(s);
    var parts :- Split(inner, CollectionItemSeparator);
    SplitSizes(inner, CollectionItemSeparator);
    if ty.TArrayOf? || ty == TArray then
      var first :- Part(parts, 0);
      var arrayItemType :- FindArrayOrListItemType(ty, first);
      var items :- DecodeItems(ty, arrayItemType, parts, |s|, 0, []);
      Ok(VArray(arrayItemType, items))
    else if ty == TArrayList then
      var items :- DecodeItems(ty, TObject, parts, |s|, 0, []);
      Ok(VArrayList(items))
    else if ty.TList? then
      var items :- DecodeItems(ty, ty.elem, parts, |s|, 0, []);
      Ok(VList(ty.elem, items))
    else
      Err(CannotCreate)
  }

  /**
   * The items of a collection from part i on, each stored into a slot of type slot and
   * added after acc, in order: by list[index] = item into an array, by list.Add(item)
   * into a list; the first failure decides. Every item added is one the slot can hold.
   */
  function DecodeItems(ty: Ty, slot: Ty, parts: seq<string>, bound: nat, i: nat, acc: seq<Value>): (r: Result<seq<Value>>)
    requires IsList(ty) && Shorter(parts, bound) && i <= |parts|
    ensures r.Ok? ==> |r.value| == |acc| + |parts| - i && r.value[..|acc|] == acc
    ensures r.Ok? ==> forall j :: |acc| <= j < |r.value| ==> Assignable(slot, r.value[j])
    decreases bound, 0, |parts| - i
  {
    if i == |parts| then Ok(acc)
    else
      var item :- DecodeItem(ty, parts[i]);
      var stored :- StoreItem(ty, slot, item);
      var rest := DecodeItems(ty, slot, parts, bound, i + 1, acc + [stored]);
      if rest.Ok? then PrefixGrown(acc, stored, rest.value); ItemsAssignable(slot, |acc|, rest.value); rest else rest
  }

  /** Every item from k on fits the slot when item k does and every item after it does. */
  lemma ItemsAssignable(slot: Ty, k: nat, rs: seq<Value>)
    requires k < |rs| && Assignable(slot, rs[k]) && forall j :: k + 1 <= j < |rs| ==> Assignable(slot, rs[j])
    ensures forall j :: k <= j < |rs| ==> Assignable(slot, rs[j])
  {
  }

  /** A sequence that starts with acc + [x] starts with acc and has x next. */
  lemma PrefixGrown<T>(acc: seq<T>, x: T, rs: seq<T>)
    requires |acc| < |rs| && rs[..|acc| + 1] == acc + [x]
    ensures rs[..|acc|] == acc && rs[|acc|] == x
  {
    assert rs[..|acc|] == rs[..|acc| + 1][..|acc|];
  }

  /** Storing an item into a collection of type ty: list[index] = item into an array, list.Add(item) otherwise. */
  function StoreItem(ty: Ty, slot: Ty, item: Value): (r: Result<Value>)
    ensures r.Ok? ==> Assignable(slot, r.value)
  {
    if ty.TArrayOf? || ty == TArray then SetElement(slot, item) else AddTo(slot, item)
  }

  /** One item value#tag of a collection of type ty: the value read under the resolved type. */
  function DecodeItem(ty: Ty, part: string): Result<Value>
    requires IsList(ty)
    decreases |part|, 3, 0
  {
    var member :- SplitMemberItemString(part);
    var itemType :- FindArrayOrListItemType(ty, part);
    Decode(itemType, member.0)
  }

  /** The IDictionary branch: a typed map gets its entries by indexer assignment; Dictionary<,> cannot be created. */
  function DecodeMap(ty: Ty, s: string): (r: Result<Value>)
    requires IsDict(ty)
    ensures ty == TDictDef ==> r.Err?
    ensures r.Ok? ==> r.value.VDict? && r.value.keyTy == ty.key && r.value.valueTy == ty.value
    ensures r.Ok? ==> forall e :: e in r.value.entries ==> Assignable(ty.key, e.key) && Assignable(ty.value, e.value)
    decreases |s|, 1, 0
  {
    var inner :- StripMarkers(s);
    var parts :- Split(inner, CollectionItemSeparator);
    SplitSizes(inner, CollectionItemSeparator);
    if ty == TDictDef then Err(CannotCreate)
    else
      var entries :- DecodeEntries(ty, parts, |s|, 0, []);
      Ok(VDict(ty.key, ty.value, entries))
  }

  /**
   * The entries of a map from part i on, each stored after acc by dic[key] = value
   * through IDictionary: a null key, a null value of a value type, and a key or value
   * the map's types cannot hold throw, in that order of checks; a key already present
   * has its value replaced.
   */
  function DecodeEntries(ty: Ty, parts: seq<string>, bound: nat, i: nat, acc: seq<Entry>): (r: Result<seq<Entry>>)
    requires ty.TDict? && Shorter(parts, bound) && i <= |parts|
    ensures r.Ok? ==> forall e :: e in r.value && e !in acc ==> Assignable(ty.key, e.key) && Assignable(ty.value, e.value)
    decreases bound, 0, |parts| - i
  {
    if i == |parts| then Ok(acc)
    else
      var e :- DecodeEntry(ty, parts[i]);
      if e.key.VNull? then Err(NullKey)
      else if e.value.VNull? && IsValueType(ty.value) then Err(NullValue)
      else
        var key :- AddTo(ty.key, e.key);
        var value :- AddTo(ty.value, e.value);
        DecodeEntries(ty, parts, bound, i + 1, Put(acc, key, value))
  }

  /** One entry key#tag::value#tag: both types resolved first, then the key read, then the value. */
  function DecodeEntry(ty: Ty, kv: string): Result<Entry>
    requires IsDict(ty)
    decreases |kv|, 3, 0
  {
    var kvs :- Split(kv, DictionaryKVSeparator);
    SplitSizes(kv, DictionaryKVSeparator);
    var k :- Part(kvs, 0);
    var keyType :- FindDictionaryItemType(ty, k, true);
    var w :- Part(kvs, 1);
    var valueType :- FindDictionaryItemType(ty, w, false);
    var keyMember :- SplitMemberItemString(k);
    var key :- Decode(keyType, keyMember.0);
    var valueMember :- SplitMemberItemString(w);
    var value :- Decode(valueType, valueMember.0);
    Ok(Entry(key, value))
  }

  /** ReadObjectValue: the procedure of the source; it returns what Decode describes. */
  method ReadObjectValue(ty: Ty, s: string) returns (r: Result<Value>)
    ensures r == Decode(ty, s)
    decreases |s|, 2, 0
  {
    if ty == TInt || ty.TEnum? {
      var i :- ToInt32(s);
      r := Ok(VInt(i));
    } else if ty == TBool {
      var i :- ToInt32(s);
      r := Ok(VBool(i > 0));
    } else if ty == TFloat {
      var t :- StripMarkers(s);
      r := Ok(VFloat(t));
    } else if ty == TDouble {
      var t :- StripMarkers(s);
      r := Ok(VDouble(t));
    } else if ty == TString {
      var t :- StripMarkers(s);
      r := Ok(VString(t));
    } else if ty == TLong {
      var l :- ToInt64(s);
      r := Ok(VLong(l));
    } else if ty == TDateTime {
      r := Ok(VDateTime(s));
    } else if IsList(ty) {
      r := ReadCollection(ty, s);
    } else if IsDict(ty) {
      r := ReadMap(ty, s);
    } else {
      r := Ok(VNull);
    }
  }

  /** The IList branch of ReadObjectValue. */
  method ReadCollection(ty: Ty, s: string) returns (r: Result<Value>)
    requires IsList(ty)
    ensures r == DecodeCollection(ty, s)
    decreases |s|, 1, 0
  {
    var inner :- StripMarkers(s);
    var split := SplitOrganizedString(inner, CollectionItemSeparator, []);
    assert Appended([], Split(inner, CollectionItemSeparator)) == Split(inner, CollectionItemSeparator) by {
      if Split(inner, CollectionItemSeparator).Ok? {
        assert [] + Split(inner, CollectionItemSeparator).value == Split(inner, CollectionItemSeparator).value;
      }
    }
    var listValueString :- split;
    SplitSizes(inner, CollectionItemSeparator);
    if ty.TArrayOf? || ty == TArray {
      var first :- Part(listValueString, 0);
      var arrayItemType :- FindArrayOrListItemType(ty, first);
      var items :- ReadArrayItems(ty, arrayItemType, listValueString, |s|);
      r := Ok(VArray(arrayItemType, items));
    } else if ty == TArrayList {
      var items :- ReadListItems(ty, TObject, listValueString, |s|);
      r := Ok(VArrayList(items));
    } else if ty.TList? {
      var items :- ReadListItems(ty, ty.elem, listValueString, |s|);
      r := Ok(VList(ty.elem, items));
    } else {
      r := Err(CannotCreate);  // Activator.CreateInstance(List<>)
    }
  }

  /** Array.CreateInstance(arrayItemType, n), then list[index] = ... for each part. */
  method ReadArrayItems(ty: Ty, arrayItemType: Ty, parts: seq<string>, bound: nat) returns (r: Result<seq<Value>>)
    requires (ty.TArrayOf? || ty == TArray) && Shorter(parts, bound)
    ensures r == DecodeItems(ty, arrayItemType, parts, bound, 0, [])
    decreases bound, 0, |parts|
  {
    var list := new Value[|parts|];
    for index := 0 to |parts|
      invariant DecodeItems(ty, arrayItemType, parts, bound, 0, [])
        == DecodeItems(ty, arrayItemType, parts, bound, index, list[..index])
    {
      var item := ReadItem(ty, parts[index]);
      if item.Err? {
        return Err(item.error);
      }
      var stored := SetElement(arrayItemType, item.value);
      if stored.Err? {
        return Err(stored.error);
      }
      list[index] := stored.value;
      assert list[..index + 1] == list[..index] + [list[index]];
    }
    assert list[..|parts|] == list[..];
    r := Ok(list[..]);
  }

  /** Activator.CreateInstance of the list, then list.Add(...) for each part. */
  method ReadListItems(ty: Ty, slot: Ty, parts: seq<string>, bound: nat) returns (r: Result<seq<Value>>)
    requires IsList(ty) && !ty.TArrayOf? && ty != TArray && Shorter(parts, bound)
    ensures r == DecodeItems(ty, slot, parts, bound, 0, [])
    decreases bound, 0, |parts|
  {
    var list: seq<Value> := [];
    for index := 0 to |parts|
      invariant DecodeItems(ty, slot, parts, bound, 0, []) == DecodeItems(ty, slot, parts, bound, index, list)
    {
      var item := ReadItem(ty, parts[index]);
      if item.Err? {
        return Err(item.error);
      }
      var added := AddTo(slot, item.value);
      if added.Err? {
        return Err(added.error);
      }
      list := list + [added.value];
    }
    r := Ok(list);
  }

  /** The body of the for loop over the parts: split off the tag, resolve the type, read the value. */
  method ReadItem(ty: Ty, part: string) returns (r: Result<Value>)
    requires IsList(ty)
    ensures r == DecodeItem(ty, part)
    decreases |part|, 3, 0
  {
    var result :- SplitMemberItemString(part);
    var listItemType :- FindArrayOrListItemType(ty, part);
    r := ReadObjectValue(listItemType, result.0);
  }

  /** The IDictionary branch of ReadObjectValue. */
  method ReadMap(ty: Ty, s: string) returns (r: Result<Value>)
    requires IsDict(ty)
    ensures r == DecodeMap(ty, s)
    decreases |s|, 1, 0
  {
    var dicString :- StripMarkers(s);
    var split := SplitOrganizedString(dicString, CollectionItemSeparator, []);
    assert Appended([], Split(dicString, CollectionItemSeparator)) == Split(dicString, CollectionItemSeparator) by {
      if Split(dicString, CollectionItemSeparator).Ok? {
        assert [] + Split(dicString, CollectionItemSeparator).value == Split(dicString, CollectionItemSeparator).value;
      }
    }
    var dicItemStringList :- split;
    SplitSizes(dicString, CollectionItemSeparator);
    if ty == TDictDef {
      return Err(CannotCreate);  // Activator.CreateInstance(Dictionary<,>)
    }
    var entries :- ReadEntries(ty, dicItemStringList, |s|);
    r := Ok(VDict(ty.key, ty.value, entries));
  }

  /** The foreach over the entry texts: dic[key] = value for each. */
  method ReadEntries(ty: Ty, parts: seq<string>, bound: nat) returns (r: Result<seq<Entry>>)
    requires ty.TDict? && Shorter(parts, bound)
    ensures r == DecodeEntries(ty, parts, bound, 0, [])
    decreases bound, 0, |parts|
  {
    var dic: seq<Entry> := [];
    for index := 0 to |parts|
      invariant DecodeEntries(ty, parts, bound, 0, []) == DecodeEntries(ty, parts, bound, index, dic)
    {
      var entry := ReadEntry(ty, parts[index]);
      if entry.Err? {
        return Err(entry.error);
      }
      if entry.value.key.VNull? {
        return Err(NullKey);
      }
      if entry.value.value.VNull? && IsValueType(ty.value) {
        return Err(NullValue);
      }
      var key :- AddTo(ty.key, entry.value.key);
      var value :- AddTo(ty.value, entry.value.value);
      dic := Put(dic, key, value);
    }
    r := Ok(dic);
  }

  /** The body of that foreach: split at "::", resolve both types, read the key, then the value. */
  method ReadEntry(ty: Ty, kvString: string) returns (r: Result<Entry>)
    requires IsDict(ty)
    ensures r == DecodeEntry(ty, kvString)
    decreases |kvString|, 3, 0
  {
    var split := SplitOrganizedString(kvString, DictionaryKVSeparator, []);
    assert Appended([], Split(kvString, DictionaryKVSeparator)) == Split(kvString, DictionaryKVSeparator) by {
      if Split(kvString, DictionaryKVSeparator).Ok? {
        assert [] + Split(kvString, DictionaryKVSeparator).value == Split(kvString, DictionaryKVSeparator).value;
      }
    }
    var kvStringList :- split;
    SplitSizes(kvString, DictionaryKVSeparator);
    var k :- Part(kvStringList, 0);
    var dicKeyType :- FindDictionaryItemType(ty, k, true);
    var w :- Part(kvStringList, 1);
    var dicValueType :- FindDictionaryItemType(ty, w, false);
    // both items were split by the resolvers already
    var key :- ReadObjectValue(dicKeyType, SplitMemberItemString(k).value.0);
    var value :- ReadObjectValue(dicValueType, SplitMemberItemString(w).value.0);
    r := Ok(Entry(key, value));
  }
}
