// The default converter between decoded XML data and Python-like data: which keys stand for
// the text, the attributes, the character-data parts and the namespace declarations, and how
// the children of an element are gathered under their names.
module Converters {
  import opened Wrappers
  import Strs

  /** Decoded data: None, a string, another atomic value, a list, or a dictionary in key order. */
  datatype Data =
    | DNone
    | DText(s: string)
    | DAtom(repr: string)
    | DList(items: seq<Data>)
    | DDict(entries: seq<(string, Data)>)

  /** Python values given to __setattr__, as far as its checks tell them apart. */
  datatype PyValue = PNone | PStr(s: string) | PBool(b: bool) | PInt(i: int) | POther

  /** The name of a content part: an int for a character-data part, else a tag. */
  datatype CName = Index(i: nat) | Name(s: string)

  /** The XSD element of a child: none, or one whose occurrence is single or not. */
  datatype ChildInfo = NoChild | Child(single: bool)

  // ---- dictionaries as key-ordered items ----

  function Lookup(d: seq<(string, Data)>, k: string): Option<Data>
  {
    if d == [] then None else if d[0].0 == k then Some(d[0].1) else Lookup(d[1..], k)
  }

  /** d[k] = v: a known key keeps its place, a new one goes last. */
  function Put(d: seq<(string, Data)>, k: string, v: Data): (r: seq<(string, Data)>)
    ensures Lookup(r, k) == Some(v)
    ensures forall k' :: k' != k ==> Lookup(r, k') == Lookup(d, k')
    ensures |r| == if Lookup(d, k).Some? then |d| else |d| + 1
  {
    if d == [] then [(k, v)]
    else if d[0].0 == k then [(k, v)] + d[1..]
    else [d[0]] + Put(d[1..], k, v)
  }

  /** d.update(items): Put for each item in order. */
  function Update(d: seq<(string, Data)>, items: seq<(string, Data)>): seq<(string, Data)>
  {
    if items == [] then d
    else Put(Update(d, items[..|items| - 1]), items[|items| - 1].0, items[|items| - 1].1)
  }

  /** A key none of the items has keeps its old value through an update. */
  lemma {:induction false} UpdateKeeps(d: seq<(string, Data)>, items: seq<(string, Data)>, k: string)
    requires forall i :: 0 <= i < |items| ==> items[i].0 != k
    ensures Lookup(Update(d, items), k) == Lookup(d, k)
    decreases |items|
  {
    if items != [] {
      UpdateKeeps(d, items[..|items| - 1], k);
    }
  }

  /** After an update, a key holds the value of its last item. */
  lemma {:induction false} UpdateLast(d: seq<(string, Data)>, items: seq<(string, Data)>, k: string, i: nat)
    requires i < |items| && items[i].0 == k && forall j :: i < j < |items| ==> items[j].0 != k
    ensures Lookup(Update(d, items), k) == Some(items[i].1)
    decreases |items|
  {
    if i < |items| - 1 {
      var init := items[..|items| - 1];
      UpdateLast(d, init, k, i);
    }
  }

  // ---- decimal indexes of the character-data keys ----

  function Digit(n: nat): char
    requires n < 10
  {
    "0123456789"[n]
  }

  predicate IsDigit(c: char)
  {
    '0' <= c <= '9'
  }

  function DigitValue(c: char): (r: nat)
    requires IsDigit(c)
    ensures r < 10
  {
    c as int - '0' as int
  }

  /** str(n) for a non-negative int. */
  function DecimalString(n: nat): (r: string)
    ensures r != [] && forall i :: 0 <= i < |r| ==> IsDigit(r[i])
  {
    if n < 10 then [Digit(n)] else DecimalString(n / 10) + [Digit(n % 10)]
  }

  /** int(s) for a string of ASCII digits. */
  function ParseDecimal(s: string): nat
    requires forall i :: 0 <= i < |s| ==> IsDigit(s[i])
  {
    if s == [] then 0 else 10 * ParseDecimal(s[..|s| - 1]) + DigitValue(s[|s| - 1])
  }

  /** int(str(n)) == n. */
  lemma {:induction false} DecimalRoundTrip(n: nat)
    ensures ParseDecimal(DecimalString(n)) == n
  {
    var s := DecimalString(n);
    if n >= 10 {
      DecimalRoundTrip(n / 10);
      assert s[..|s| - 1] == DecimalString(n / 10);
    }
  }

  /** s.split(':')[0]: the part before the first colon, or all of s. */
  function BeforeColon(s: string): (r: string)
    ensures StartsWith(s, r) && ':' !in r
    ensures |r| < |s| ==> s[|r|] == ':'
  {
    if s == [] || s[0] == ':' then [] else [s[0]] + BeforeColon(s[1..])
  }

  predicate StartsWith(s: string, p: string)
  {
    |p| <= |s| && s[..|p|] == p
  }

  /** The decoded data of an element: tag, text, content parts, attributes, namespace declarations. */
  datatype ElementData = ElementData(
    tag: string, text: Data, content: seq<(CName, Data, ChildInfo)>,
    attributes: seq<(string, Data)>, xmlns: Option<seq<(string, string)>>)

  /** What the converter needs to know of the element's type. */
  datatype TypeInfo = TypeInfo(hasModelGroup: bool, isComplex: bool, isQName: bool, singleGroup: bool)

  /** What the converter needs of the XSD element when encoding. */
  datatype ElementInfo = ElementInfo(
    name: string, hasSimpleType: bool, mixed: bool, attributeNames: set<string>,
    matchesTag: string -> bool, childIsList: string -> Option<bool>)

  /** How element_encode reads a key of the data: text, character data, xmlns, attribute or content. */
  datatype KeyKind = TextKey | CdataKey(index: nat) | XmlnsKey | AttrKey(name: string) | ContentKey

  /** The contents of an encoded element: a list of parts, or the data itself. */
  datatype EncodedContent = NoContent | Parts(parts: seq<(CName, Data)>) | Raw(d: Data)

  datatype Encoded = Encoded(tag: string, text: Data, content: EncodedContent, attributes: seq<(string, Data)>)

  datatype EncodeError = NotADict | NotOneItem | TagMismatch

  /** The state of the key-by-key loop of element_encode. */
  datatype EncodeState = EncodeState(text: Data, parts: seq<(CName, Data)>, attributes: seq<(string, Data)>)

  /**
   * XMLSchemaConverter (the default converter). The namespace mapper it extends is not part
   * of this model: map_qname and unmap_qname, whether namespaces are used, and the namespace
   * map are given to the constructor.
   */
  class Converter {
    var textKey: Option<string>
    var attrPrefix: Option<string>
    var cdataPrefix: Option<string>
    var nsPrefix: string
    var indent: int
    var preserveRoot: bool
    var forceDict: bool
    var forceList: bool
    var stripNamespaces: bool
    const useNamespaces: bool
    const namespaces: seq<(string, string)>
    const mapQName: string -> string
    const unmapQName: string -> string

    /** __init__: ns_prefix is 'xmlns', put after the attribute prefix when there is one. */
    constructor (textKey: Option<string>, attrPrefix: Option<string>, cdataPrefix: Option<string>, indent: int,
                 preserveRoot: bool, forceDict: bool, forceList: bool, stripNamespaces: bool,
                 useNamespaces: bool, namespaces: seq<(string, string)>,
                 mapQName: string -> string, unmapQName: string -> string)
      ensures this.textKey == textKey && this.attrPrefix == attrPrefix && this.cdataPrefix == cdataPrefix
      ensures nsPrefix == if attrPrefix.None? then "xmlns" else attrPrefix.value + "xmlns"
      ensures this.indent == indent && this.preserveRoot == preserveRoot && this.forceDict == forceDict
      ensures this.forceList == forceList && this.stripNamespaces == stripNamespaces
      ensures this.useNamespaces == useNamespaces && this.namespaces == namespaces
      ensures this.mapQName == mapQName && this.unmapQName == unmapQName
    {
      this.textKey, this.attrPrefix, this.cdataPrefix := textKey, attrPrefix, cdataPrefix;
      nsPrefix := if attrPrefix.None? then "xmlns" else attrPrefix.value + "xmlns";
      this.indent, this.preserveRoot, this.forceDict := indent, preserveRoot, forceDict;
      this.forceList, this.stripNamespaces := forceList, stripNamespaces;
      this.useNamespaces, this.namespaces := useNamespaces, namespaces;
      this.mapQName, this.unmapQName := mapQName, unmapQName;
    }

    /**
     * __setattr__: the prefixes and the text key take a str or None, the four flags a bool and
     * indent an int that is no bool; anything else is a type error and changes nothing.
     * Other names are not checked and are not modelled fields.
     */
    method SetAttr(name: string, value: PyValue) returns (r: Result<(), ()>)
      modifies this
      ensures r.Err? <==>
                (name in {"attr_prefix", "text_key", "cdata_prefix"} && !(value.PNone? || value.PStr?))
                || (name in {"strip_namespaces", "preserve_root", "force_dict", "force_list"} && !value.PBool?)
                || (name == "indent" && !value.PInt?)
      ensures var o := if value.PStr? then Some(value.s) else None;
              textKey == (if r.Ok? && name == "text_key" then o else old(textKey)) &&
              attrPrefix == (if r.Ok? && name == "attr_prefix" then o else old(attrPrefix)) &&
              cdataPrefix == (if r.Ok? && name == "cdata_prefix" then o else old(cdataPrefix))
      ensures preserveRoot == (if r.Ok? && name == "preserve_root" then value.b else old(preserveRoot))
      ensures forceDict == (if r.Ok? && name == "force_dict" then value.b else old(forceDict))
      ensures forceList == (if r.Ok? && name == "force_list" then value.b else old(forceList))
      ensures stripNamespaces == (if r.Ok? && name == "strip_namespaces" then value.b else old(stripNamespaces))
      ensures indent == (if r.Ok? && name == "indent" then value.i else old(indent))
      ensures nsPrefix == old(nsPrefix)
    {
      if name in {"attr_prefix", "text_key", "cdata_prefix"} {
        if !(value.PNone? || value.PStr?) {
          return Err(());
        }
        var o := if value.PStr? then Some(value.s) else None;
        if name == "attr_prefix" {
          attrPrefix := o;
        } else if name == "text_key" {
          textKey := o;
        } else {
          cdataPrefix := o;
        }
      } else if name in {"strip_namespaces", "preserve_root", "force_dict", "force_list"} {
        if !value.PBool? {
          return Err(());
        }
        if name == "strip_namespaces" {
          stripNamespaces := value.b;
        } else if name == "preserve_root" {
          preserveRoot := value.b;
        } else if name == "force_dict" {
          forceDict := value.b;
        } else {
          forceList := value.b;
        }
      } else if name == "indent" {
        if !value.PInt? {
          return Err(());
        }
        indent := value.i;
      }
      return Ok(());
    }

    /** lossy: some kind of XML data has no key to go under. */
    predicate Lossy()
      reads this
    {
      cdataPrefix.None? || textKey.None? || attrPrefix.None?
    }

    /** is_xmlns: the name is ns_prefix, or ns_prefix followed by ':' and a prefix. */
    predicate IsXmlns(name: string)
      reads this
    {
      StartsWith(name, nsPrefix) && (name == nsPrefix || StartsWith(name, nsPrefix + ":"))
    }

    /** map_attributes: every name prefixed with attr_prefix, or nothing without a prefix. */
    function MapAttributes(attributes: seq<(string, Data)>): (r: seq<(string, Data)>)
      reads this
      ensures attrPrefix.None? ==> r == []
      ensures attrPrefix.Some? ==> |r| == |attributes| && forall i :: 0 <= i < |r| ==>
                r[i] == (attrPrefix.value + mapQName(attributes[i].0), attributes[i].1)
    {
      if attrPrefix.None? || attributes == [] then []
      else [(attrPrefix.value + mapQName(attributes[0].0), attributes[0].1)] + MapAttributes(attributes[1..])
    }

    /** The key of one content part, if it has one. */
    function PartKey(name: CName): (r: Option<string>)
      reads this
      ensures r.None? <==> name.Index? && cdataPrefix.None?
    {
      match name
      case Index(n) => if cdataPrefix.Some? then Some(cdataPrefix.value + DecimalString(n)) else None
      case Name(s) => if s != [] && s[0] == '{' then Some(mapQName(s)) else Some(s)
    }

    /**
     * map_content: a character-data part is keyed by cdata_prefix and its index, and dropped
     * without a prefix; an expanded tag is mapped to its prefixed form.
     */
    function MapContent(content: seq<(CName, Data, ChildInfo)>): (r: seq<(string, Data, ChildInfo)>)
      reads this
      ensures |r| == |content| - (if cdataPrefix.Some? then 0 else IndexParts(content))
    {
      if content == [] then []
      else
        var c := content[0];
        var rest := MapContent(content[1..]);
        match PartKey(c.0)
        case None => rest
        case Some(k) => [(k, c.1, c.2)] + rest
    }

    /** A content part under its key, for a part that has one. */
    function Keyed(c: (CName, Data, ChildInfo)): (string, Data, ChildInfo)
      reads this
      requires PartKey(c.0).Some?
    {
      (PartKey(c.0).value, c.1, c.2)
    }

    /** With a cdata prefix, or without character data, every part is kept in place under its key. */
    lemma {:induction false} MapContentInPlace(content: seq<(CName, Data, ChildInfo)>)
      requires cdataPrefix.Some? || IndexParts(content) == 0
      ensures |MapContent(content)| == |content|
      ensures forall i :: 0 <= i < |content| ==> PartKey(content[i].0).Some? && MapContent(content)[i] == Keyed(content[i])
    {
      if content != [] {
        MapContentInPlace(content[1..]);
        var r := MapContent(content);
        forall i | 0 <= i < |content| ensures PartKey(content[i].0).Some? && r[i] == Keyed(content[i]) {
          if i > 0 {
            assert content[i] == content[1..][i - 1];
          }
        }
      }
    }

    /** Every part of the result is a part of content under its key. */
    lemma {:induction false} MapContentFrom(content: seq<(CName, Data, ChildInfo)>, i: nat)
      requires i < |MapContent(content)|
      ensures exists j :: 0 <= j < |content| && PartKey(content[j].0).Some? && MapContent(content)[i] == Keyed(content[j])
    {
      var c := content[0];
      var rest := MapContent(content[1..]);
      if PartKey(c.0).Some? && i == 0 {
        assert MapContent(content)[0] == Keyed(content[0]);
      } else {
        var i' := if PartKey(c.0).Some? then i - 1 else i;
        assert MapContent(content)[i] == rest[i'];
        MapContentFrom(content[1..], i');
        var j :| 0 <= j < |content[1..]| && PartKey(content[1..][j].0).Some? && rest[i'] == Keyed(content[1..][j]);
        assert content[1..][j] == content[j + 1];
      }
    }

    /** The number of character-data parts in content. */
    function IndexParts(content: seq<(CName, Data, ChildInfo)>): nat
    {
      if content == [] then 0 else (if content[0].0.Index? then 1 else 0) + IndexParts(content[1..])
    }

    /** The key-value pairs of the namespace declarations, as element_decode writes them. */
    function XmlnsItems(xmlns: seq<(string, string)>): (r: seq<(string, Data)>)
      reads this
      ensures |r| == |xmlns|
      ensures forall i :: 0 <= i < |r| ==>
                r[i] == (if xmlns[i].0 != "" then nsPrefix + ":" + xmlns[i].0 else nsPrefix, DText(xmlns[i].1))
    {
      if xmlns == [] then []
      else
        var k := if xmlns[0].0 != "" then nsPrefix + ":" + xmlns[0].0 else nsPrefix;
        [(k, DText(xmlns[0].1))] + XmlnsItems(xmlns[1..])
    }

    /** get_effective_xmlns: below the root the element's own; at the root all of them for a global element. */
    function EffectiveXmlns(xmlns: Option<seq<(string, string)>>, level: int, isGlobal: bool): Option<seq<(string, string)>>
      reads this
    {
      if level != 0 then xmlns else if !isGlobal then None else Some(namespaces)
    }

    /** keep_result_dict: whether an element with simple content decodes to a dictionary. */
    predicate KeepResultDict(data: ElementData, t: TypeInfo, xmlns: Option<seq<(string, string)>>)
      reads this
    {
      if data.attributes != [] || (forceDict && t.isComplex) then true
      else if xmlns.None? || xmlns.value == [] || !useNamespaces then false
      else
        var ns := Strs.GetNamespace(data.tag);
        (exists i :: 0 <= i < |xmlns.value| && xmlns.value[i].1 == ns)
        || (t.isQName && data.text.DText? &&
            exists i :: 0 <= i < |xmlns.value| && xmlns.value[i].0 == BeforeColon(data.text.s))
    }

    /**
     * One content part into the result dictionary: a first value is kept as is when the child
     * is single in a single group (or there is no child), else in a list (always with
     * force_list); a repeated name collects its values in a list.
     */
    function AddChild(d: seq<(string, Data)>, name: string, value: Data, child: ChildInfo, singleGroup: bool): seq<(string, Data)>
      reads this
    {
      match Lookup(d, name)
      case None =>
        Put(d, name, if child.NoChild? || (singleGroup && child.single)
                     then (if forceList then DList([value]) else value) else DList([value]))
      case Some(result) =>
        if !result.DList? || result.items == [] then Put(d, name, DList([result, value]))
        else if result.items[0].DList? || !value.DList? then Put(d, name, DList(result.items + [value]))
        else Put(d, name, DList([result, value]))
    }

    /** The loop of element_decode over the mapped content. */
    function ChildrenOf(d: seq<(string, Data)>, mapped: seq<(string, Data, ChildInfo)>, singleGroup: bool): seq<(string, Data)>
      reads this
    {
      if mapped == [] then d
      else
        var last := mapped[|mapped| - 1];
        AddChild(ChildrenOf(d, mapped[..|mapped| - 1], singleGroup), last.0, last.1, last.2, singleGroup)
    }

    /** The result, wrapped under the root tag at level 0 with preserve_root; an empty dict is None. */
    function Wrap(d: seq<(string, Data)>, tag: string, level: int): Data
      reads this
    {
      var v := if d == [] then DNone else DDict(d);
      if level == 0 && preserveRoot then DDict([(mapQName(tag), v)]) else v
    }

    /** The namespace declarations of the element, when they are used, then its prefixed attributes. */
    function Leading(data: ElementData, xmlns: Option<seq<(string, string)>>): seq<(string, Data)>
      reads this
    {
      var d0 := if useNamespaces && xmlns.Some? && xmlns.value != [] then XmlnsItems(xmlns.value) else [];
      Update(d0, MapAttributes(data.attributes))
    }

    /** element_decode. */
    function ElementDecode(data: ElementData, t: TypeInfo, level: int, isGlobal: bool): Data
      reads this
    {
      var xmlns := EffectiveXmlns(data.xmlns, level, isGlobal);
      var d1 := Leading(data, xmlns);
      if !t.hasModelGroup || data.content == [] then
        if KeepResultDict(data, t, xmlns) then
          var d2 := Update(d1, MapAttributes(data.attributes));
          var d3 := if !data.text.DNone? && textKey.Some? then Put(d2, textKey.value, data.text) else d2;
          Wrap(d3, data.tag, level)
        else if level == 0 && preserveRoot then DDict([(mapQName(data.tag), data.text)])
        else data.text
      else
        Wrap(ChildrenOf(d1, MapContent(data.content), t.singleGroup), data.tag, level)
    }

    /**
     * XMLSchemaConverter.element_decode: the namespace declarations and the prefixed
     * attributes go first; simple content gives the text (or a dictionary with the text under
     * text_key), complex content gathers the children under their names.
     */
    method DecodeElement(data: ElementData, t: TypeInfo, level: int, isGlobal: bool) returns (r: Data)
      ensures r == ElementDecode(data, t, level, isGlobal)
    {
      var xmlns := EffectiveXmlns(data.xmlns, level, isGlobal);
      var d := Leading(data, xmlns);
      if !t.hasModelGroup || data.content == [] {
        return ElementDecode(data, t, level, isGlobal);
      }
      d := AddChildren(d, MapContent(data.content), t.singleGroup);
      r := Wrap(d, data.tag, level);
    }

    /** The loop of element_decode over the mapped content, each child added in turn. */
    method AddChildren(d0: seq<(string, Data)>, mapped: seq<(string, Data, ChildInfo)>, singleGroup: bool)
      returns (d: seq<(string, Data)>)
      ensures d == ChildrenOf(d0, mapped, singleGroup)
    {
      d := d0;
      var i := 0;
      while i < |mapped|
        invariant 0 <= i <= |mapped|
        invariant d == ChildrenOf(d0, mapped[..i], singleGroup)
      {
        ChildrenOfSnoc(d0, mapped, i, singleGroup);
        d := AddChild(d, mapped[i].0, mapped[i].1, mapped[i].2, singleGroup);
        i := i + 1;
      }
      assert mapped[..i] == mapped;
    }

    /** One more mapped child is added to what the children before it gave. */
    lemma ChildrenOfSnoc(d: seq<(string, Data)>, mapped: seq<(string, Data, ChildInfo)>, i: nat, singleGroup: bool)
      requires i < |mapped|
      ensures ChildrenOf(d, mapped[..i + 1], singleGroup)
              == AddChild(ChildrenOf(d, mapped[..i], singleGroup), mapped[i].0, mapped[i].1, mapped[i].2, singleGroup)
    {
      assert mapped[..i + 1][..i] == mapped[..i];
    }

    /**
     * How element_encode reads a key: the text key; cdata_prefix followed by digits; a
     * namespace declaration (skipped); a non-empty attr_prefix followed by a name; else content.
     */
    function Classify(name: string): KeyKind
      reads this
    {
      if textKey == Some(name) then TextKey
      else if cdataPrefix.Some? && StartsWith(name, cdataPrefix.value) && |name| > |cdataPrefix.value|
              && forall i :: |cdataPrefix.value| <= i < |name| ==> IsDigit(name[i]) then
        CdataKey(ParseDecimal(name[|cdataPrefix.value|..]))
      else if IsXmlns(name) then XmlnsKey
      else if attrPrefix.Some? && attrPrefix.value != "" && StartsWith(name, attrPrefix.value)
              && |name| > |attrPrefix.value| then
        AttrKey(name[|attrPrefix.value|..])
      else ContentKey
    }

    /** One key-value pair of the data into the text, the content parts or the attributes. */
    function EncodeItem(s: EncodeState, name: string, value: Data, e: ElementInfo): EncodeState
      reads this
    {
      match Classify(name)
      case TextKey => s.(text := value)
      case CdataKey(n) => s.(parts := s.parts + [(Index(n), value)])
      case XmlnsKey => s
      case AttrKey(a) => s.(attributes := Put(s.attributes, unmapQName(a), value))
      case ContentKey =>
        var ns := unmapQName(name);
        if !value.DList? || value.items == [] then s.(parts := s.parts + [(Name(ns), value)])
        else if value.items[0].DDict? || value.items[0].DList? then s.(parts := s.parts + Spread(ns, value.items))
        else match e.childIsList(ns)
          case Some(isList) =>
            if isList then s.(parts := s.parts + [(Name(ns), value)]) else s.(parts := s.parts + Spread(ns, value.items))
          case None =>
            if attrPrefix == Some("") && ns in e.attributeNames then s.(attributes := Put(s.attributes, ns, value))
            else s.(parts := s.parts + Spread(ns, value.items))
    }

    /** The key-by-key loop of element_encode. */
    function ItemsEncoded(items: seq<(string, Data)>, e: ElementInfo): EncodeState
      reads this
    {
      if items == [] then EncodeState(DNone, [], [])
      else
        var last := items[|items| - 1];
        EncodeItem(ItemsEncoded(items[..|items| - 1], e), last.0, last.1, e)
    }

    /** element_encode, as a function of the data. */
    function ElementEncode(obj: Data, e: ElementInfo, level: int): Result<Encoded, EncodeError>
      reads this
    {
      if level == 0 && preserveRoot && !obj.DDict? then Err(NotADict)
      else if level == 0 && preserveRoot && |obj.entries| != 1 then Err(NotOneItem)
      else
        var name := if level == 0 && preserveRoot then Some(obj.entries[0].0) else None;
        var o := if level == 0 && preserveRoot then obj.entries[0].1 else obj;
        if !o.DDict? then
          if e.hasSimpleType then Ok(Encoded(e.name, o, NoContent, []))
          else if e.mixed && o.DText? then Ok(Encoded(e.name, DNone, Parts([(Index(1), o)]), []))
          else Ok(Encoded(e.name, DNone, Raw(o), []))
        else
          var tag := if name.None? then e.name else unmapQName(name.value);
          if name.Some? && !e.matchesTag(tag) then Err(TagMismatch)
          else
            var s := ItemsEncoded(o.entries, e);
            Ok(Encoded(tag, s.text, Parts(s.parts), s.attributes))
    }

    /**
     * XMLSchemaConverter.element_encode: with preserve_root at the root, the data must be a
     * dictionary of one item whose key matches the element; then each key of the data is
     * read as text, character data, namespace declaration, attribute or content.
     */
    method EncodeElement(obj: Data, e: ElementInfo, level: int) returns (r: Result<Encoded, EncodeError>)
      ensures r == ElementEncode(obj, e, level)
    {
      var o := obj;
      var name: Option<string> := None;
      if level == 0 && preserveRoot {
        if !obj.DDict? {
          return Err(NotADict);
        } else if |obj.entries| != 1 {
          return Err(NotOneItem);
        }
        name, o := Some(obj.entries[0].0), obj.entries[0].1;
      }
      if !o.DDict? {
        return ElementEncode(obj, e, level);
      }
      var tag := if name.None? then e.name else unmapQName(name.value);
      if name.Some? && !e.matchesTag(tag) {
        return Err(TagMismatch);
      }
      var items := o.entries;
      var s := EncodeState(DNone, [], []);
      var i := 0;
      while i < |items|
        invariant 0 <= i <= |items|
        invariant s == ItemsEncoded(items[..i], e)
      {
        assert items[..i + 1][..i] == items[..i];
        s := EncodeItem(s, items[i].0, items[i].1, e);
        i := i + 1;
      }
      assert items[..i] == items;
      return Ok(Encoded(tag, s.text, Parts(s.parts), s.attributes));
    }

    // ---- properties ----

    /**
     * The converter is lossy exactly when some kind of data has nowhere to go: attributes are
     * dropped, character-data parts are dropped, or no key is ever read back as the text.
     */
    lemma LossyMeaning()
      ensures Lossy() <==>
                MapAttributes([("a", DNone)]) == [] || MapContent([(Index(1), DNone, NoChild)]) == []
                || forall name :: Classify(name) != TextKey
    {
      if !Lossy() {
        assert Classify(textKey.value) == TextKey;
      }
    }

    /** is_xmlns: the name is ns_prefix itself or starts with ns_prefix and a colon. */
    lemma IsXmlnsMeaning(name: string)
      ensures IsXmlns(name) <==> name == nsPrefix || StartsWith(name, nsPrefix + ":")
    {
      if StartsWith(name, nsPrefix + ":") {
        assert name[..|nsPrefix|] == (nsPrefix + ":")[..|nsPrefix|];
      }
    }

    /**
     * The keys element_decode writes for namespace declarations are read back as
     * declarations, and skipped, by element_encode (unless another key rule claims them first).
     */
    lemma XmlnsKeysSkipped(xmlns: seq<(string, string)>, i: nat)
      requires i < |xmlns|
      requires textKey != Some(XmlnsItems(xmlns)[i].0)
      requires cdataPrefix.None? || !StartsWith(XmlnsItems(xmlns)[i].0, cdataPrefix.value)
      ensures IsXmlns(XmlnsItems(xmlns)[i].0)
      ensures Classify(XmlnsItems(xmlns)[i].0) == XmlnsKey
    {
      var k := XmlnsItems(xmlns)[i].0;
      if xmlns[i].0 != "" {
        assert k == nsPrefix + ":" + xmlns[i].0;
        assert k[..|nsPrefix|] == nsPrefix;
        assert k[..|nsPrefix + ":"|] == nsPrefix + ":";
      }
    }

    /**
     * The key map_attributes gives an attribute is read back by element_encode as that
     * attribute, and unmapped to the original name when unmap_qname undoes map_qname.
     */
    lemma AttributeKeysRead(name: string, value: Data, s: EncodeState, e: ElementInfo)
      requires attrPrefix.Some? && attrPrefix.value != "" && mapQName(name) != ""
      requires textKey != Some(attrPrefix.value + mapQName(name))
      requires cdataPrefix.None? || !StartsWith(attrPrefix.value + mapQName(name), cdataPrefix.value)
      requires !IsXmlns(attrPrefix.value + mapQName(name))
      requires unmapQName(mapQName(name)) == name
      ensures Classify(attrPrefix.value + mapQName(name)) == AttrKey(mapQName(name))
      ensures Lookup(EncodeItem(s, attrPrefix.value + mapQName(name), value, e).attributes, name) == Some(value)
    {
      var k := attrPrefix.value + mapQName(name);
      assert k[..|attrPrefix.value|] == attrPrefix.value;
      assert k[|attrPrefix.value|..] == mapQName(name);
    }

    /** The key map_content gives a character-data part is read back by element_encode as its index. */
    lemma CdataKeysRead(n: nat)
      requires cdataPrefix.Some?
      requires textKey != Some(cdataPrefix.value + DecimalString(n))
      ensures PartKey(Index(n)) == Some(cdataPrefix.value + DecimalString(n))
      ensures Classify(cdataPrefix.value + DecimalString(n)) == CdataKey(n)
    {
      var p, k := cdataPrefix.value, cdataPrefix.value + DecimalString(n);
      assert k[..|p|] == p;
      assert k[|p|..] == DecimalString(n);
      DecimalRoundTrip(n);
    }

    /** The values of the mapped parts under a name, in order. */
    function ValuesNamed(mapped: seq<(string, Data, ChildInfo)>, name: string): (r: seq<Data>)
    {
      if mapped == [] then []
      else ValuesNamed(mapped[..|mapped| - 1], name)
           + (if mapped[|mapped| - 1].0 == name then [mapped[|mapped| - 1].1] else [])
    }

    /**
     * A name repeated among the children collects all its (non-list) values in a list, in
     * order; a name met once keeps its value, as is or in a list of one.
     */
    lemma {:induction false} RepeatedNameCollects(d: seq<(string, Data)>, mapped: seq<(string, Data, ChildInfo)>,
                                                  singleGroup: bool, name: string)
      requires Lookup(d, name).None?
      requires forall i :: 0 <= i < |mapped| && mapped[i].0 == name ==> !mapped[i].1.DList?
      ensures var vs := ValuesNamed(mapped, name);
              var r := Lookup(ChildrenOf(d, mapped, singleGroup), name);
              (|vs| == 0 ==> r.None?) &&
              (|vs| == 1 ==> r == Some(vs[0]) || r == Some(DList(vs))) &&
              (|vs| >= 2 ==> r == Some(DList(vs)))
      decreases |mapped|
    {
      if mapped != [] {
        var init := mapped[..|mapped| - 1];
        var last := mapped[|mapped| - 1];
        assert forall i :: 0 <= i < |init| ==> init[i] == mapped[i];
        RepeatedNameCollects(d, init, singleGroup, name);
        var before := ChildrenOf(d, init, singleGroup);
        var vs := ValuesNamed(init, name);
        assert ChildrenOf(d, mapped, singleGroup) == AddChild(before, last.0, last.1, last.2, singleGroup);
        if last.0 == name {
          assert ValuesNamed(mapped, name) == vs + [last.1];
          forall k | 0 <= k < |vs| ensures !vs[k].DList? {
            ValuesNamedFrom(init, name, k);
          }
          AddChildSame(before, last.1, last.2, singleGroup, name, vs);
          if vs == [] {
            assert ValuesNamed(mapped, name) == [last.1];
          }
        } else {
          assert ValuesNamed(mapped, name) == vs + [] == vs;
          AddChildOther(before, last.0, last.1, last.2, singleGroup, name);
          assert Lookup(ChildrenOf(d, mapped, singleGroup), name) == Lookup(before, name);
        }
      }
    }

    /** A part under another name leaves a key alone. */
    lemma AddChildOther(d: seq<(string, Data)>, k: string, v: Data, c: ChildInfo, singleGroup: bool, name: string)
      requires k != name
      ensures Lookup(AddChild(d, k, v, c, singleGroup), name) == Lookup(d, name)
    {
    }

    /** A non-list part under a name: the first is kept, as is or in a list; the next are collected. */
    lemma AddChildSame(d: seq<(string, Data)>, v: Data, c: ChildInfo, singleGroup: bool, name: string, vs: seq<Data>)
      requires !v.DList? && forall i :: 0 <= i < |vs| ==> !vs[i].DList?
      requires |vs| == 0 ==> Lookup(d, name).None?
      requires |vs| == 1 ==> Lookup(d, name) == Some(vs[0]) || Lookup(d, name) == Some(DList(vs))
      requires |vs| >= 2 ==> Lookup(d, name) == Some(DList(vs))
      ensures var r := Lookup(AddChild(d, name, v, c, singleGroup), name);
              (|vs| == 0 ==> r == Some(v) || r == Some(DList([v]))) &&
              (|vs| >= 1 ==> r == Some(DList(vs + [v])))
    {
      if |vs| == 1 {
        assert [vs[0], v] == vs + [v];
      }
    }

    /** Each value collected under a name is the value of a part with that name. */
    lemma {:induction false} ValuesNamedFrom(mapped: seq<(string, Data, ChildInfo)>, name: string, k: nat)
      requires k < |ValuesNamed(mapped, name)|
      ensures exists i :: 0 <= i < |mapped| && mapped[i].0 == name && mapped[i].1 == ValuesNamed(mapped, name)[k]
      decreases |mapped|
    {
      var init := mapped[..|mapped| - 1];
      var vs := ValuesNamed(init, name);
      if k < |vs| {
        ValuesNamedFrom(init, name, k);
        var i :| 0 <= i < |init| && init[i].0 == name && init[i].1 == vs[k];
        assert mapped[i] == init[i];
      } else {
        assert mapped[|mapped| - 1].1 == ValuesNamed(mapped, name)[k];
      }
    }

    /**
     * Children met once each, single in a single group, keep their values as they are, or in
     * a list of one with force_list.
     */
    lemma {:induction false} SingleChildrenKept(d: seq<(string, Data)>, mapped: seq<(string, Data, ChildInfo)>, i: nat)
      requires i < |mapped| && Lookup(d, mapped[i].0).None?
      requires forall j :: 0 <= j < |mapped| && j != i ==> mapped[j].0 != mapped[i].0
      requires mapped[i].2.NoChild? || mapped[i].2 == Child(true)
      ensures Lookup(ChildrenOf(d, mapped, true), mapped[i].0) ==
                Some(if forceList then DList([mapped[i].1]) else mapped[i].1)
      decreases |mapped|
    {
      var init := mapped[..|mapped| - 1];
      if i < |init| {
        assert forall j :: 0 <= j < |init| ==> init[j] == mapped[j];
        SingleChildrenKept(d, init, i);
      } else {
        ChildrenOfKeeps(d, init, mapped[i].0);
      }
    }

    /** Children under other names leave a key alone. */
    lemma {:induction false} ChildrenOfKeeps(d: seq<(string, Data)>, mapped: seq<(string, Data, ChildInfo)>, name: string)
      requires forall j :: 0 <= j < |mapped| ==> mapped[j].0 != name
      ensures Lookup(ChildrenOf(d, mapped, true), name) == Lookup(d, name)
      decreases |mapped|
    {
      if mapped != [] {
        ChildrenOfKeeps(d, mapped[..|mapped| - 1], name);
      }
    }

    /**
     * An element whose result dictionary stays empty decodes to None, and at level 0 with
     * preserve_root every result is one item under the root's mapped tag.
     */
    lemma DecodeShape(data: ElementData, t: TypeInfo, level: int, isGlobal: bool)
      ensures level == 0 && preserveRoot ==>
                ElementDecode(data, t, level, isGlobal).DDict? &&
                |ElementDecode(data, t, level, isGlobal).entries| == 1 &&
                ElementDecode(data, t, level, isGlobal).entries[0].0 == mapQName(data.tag)
      ensures (level != 0 || !preserveRoot) && t.hasModelGroup && data.content != [] && data.attributes == []
              && (!useNamespaces || EffectiveXmlns(data.xmlns, level, isGlobal) == None)
              && MapContent(data.content) == [] ==>
                ElementDecode(data, t, level, isGlobal) == DNone
    {
    }

    /** Only the text key changes the encoded text. */
    lemma EncodeItemText(s: EncodeState, name: string, value: Data, e: ElementInfo)
      ensures EncodeItem(s, name, value, e).text == if textKey == Some(name) then value else s.text
    {
    }

    /** Without the text key among the keys, the encoded text stays None. */
    lemma {:induction false} NoTextKey(items: seq<(string, Data)>, e: ElementInfo)
      requires textKey.Some? && forall j :: 0 <= j < |items| ==> items[j].0 != textKey.value
      ensures ItemsEncoded(items, e).text == DNone
      decreases |items|
    {
      if items != [] {
        var init := items[..|items| - 1];
        NoTextKey(init, e);
        EncodeItemText(ItemsEncoded(init, e), items[|items| - 1].0, items[|items| - 1].1, e);
      }
    }

    /** The text key sets the encoded text to its (last) value. */
    lemma {:induction false} TextKeyEncoded(items: seq<(string, Data)>, e: ElementInfo, i: nat)
      requires textKey.Some? && i < |items| && items[i].0 == textKey.value
      requires forall j :: i < j < |items| ==> items[j].0 != textKey.value
      ensures ItemsEncoded(items, e).text == items[i].1
      decreases |items|
    {
      var init := items[..|items| - 1];
      var last := items[|items| - 1];
      if i < |init| {
        TextKeyEncoded(init, e, i);
      }
      EncodeItemText(ItemsEncoded(init, e), last.0, last.1, e);
    }

    /**
     * With preserve_root at the root, encoding fails exactly for data that is not a
     * dictionary of one item, or whose dictionary value has a key that does not match.
     */
    lemma PreserveRootErrors(obj: Data, e: ElementInfo)
      requires preserveRoot
      ensures ElementEncode(obj, e, 0).Err? <==>
                !obj.DDict? || |obj.entries| != 1 ||
                (obj.entries[0].1.DDict? && !e.matchesTag(unmapQName(obj.entries[0].0)))
    {
    }
  }

  /** content.extend((name, item) for item in items). */
  function Spread(name: string, items: seq<Data>): (r: seq<(CName, Data)>)
    ensures |r| == |items| && forall i :: 0 <= i < |r| ==> r[i] == (Name(name), items[i])
  {
    if items == [] then [] else [(Name(name), items[0])] + Spread(name, items[1..])
  }
}
