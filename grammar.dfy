/** The delimiter table of the wire format (GiftDataFormatterDefine). */
module Grammar {

  /** Default separator between the members of an object. */
  const ObjectMemberSeparator: string := ";"
  /** Between a member's alias and its value. */
  const MemberAliasSeparator: string := ":"

  const StringStartChar: char := '\U{201C}'
  const StringEndChar: char := '\U{201D}'
  const StringStart: string := [StringStartChar]
  const StringEnd: string := [StringEndChar]

  /** Between an item of a container and its type tag. */
  const SubItemTypeSeparator: string := "#"
  /** Between the items of a list or the entries of a map. */
  const CollectionItemSeparator: string := ","

  const ListStartChar: char := '['
  const ListEndChar: char := ']'
  const ArrayOrListStart: string := [ListStartChar]
  const ArrayOrListEnd: string := [ListEndChar]

  const DictStartChar: char := '{'
  const DictEndChar: char := '}'
  const DictionaryStart: string := [DictStartChar]
  /** Between the key and the value of a map entry. */
  const DictionaryKVSeparator: string := "::"
  const DictionaryEnd: string := [DictEndChar]

  /** The six characters that open or close a region the splitter must not cut. */
  predicate IsMarker(c: char) {
    c == ListStartChar || c == ListEndChar || c == DictStartChar || c == DictEndChar
    || c == StringStartChar || c == StringEndChar
  }

  /** Text without any region marker. */
  predicate Plain(t: string) {
    forall i :: 0 <= i < |t| ==> !IsMarker(t[i])
  }

  /** Text without either quote marker: what may stand between a pair of quotes. */
  predicate NoQuotes(t: string) {
    forall i :: 0 <= i < |t| ==> t[i] != StringStartChar && t[i] != StringEndChar
  }

  /** Ordinal String.StartsWith. */
  predicate StartsWith(s: string, prefix: string) {
    |prefix| <= |s| && s[..|prefix|] == prefix
  }

  lemma StartsWithChar(s: string, c: char)
    ensures StartsWith(s, [c]) <==> s != [] && s[0] == c
  {
    if s != [] && s[0] == c {
      assert s[..1] == [c];
    }
  }

  /**
   * The structural markers are one character each and pairwise distinct, so the
   * splitter can decide at each position by looking at one character; the
   * separators are not markers.
   */
  lemma MarkersDistinct()
    ensures |ArrayOrListStart| == |ArrayOrListEnd| == |DictionaryStart| == |DictionaryEnd| == 1
    ensures |StringStart| == |StringEnd| == 1
    ensures [ListStartChar, ListEndChar, DictStartChar, DictEndChar, StringStartChar, StringEndChar]
      == ['[', ']', '{', '}', '\U{201C}', '\U{201D}']
    ensures !IsMarker(';') && !IsMarker(':') && !IsMarker('#') && !IsMarker(',')
  {
  }
}
