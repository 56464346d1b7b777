/** The JSON helpers: the property-name rewriting of the XML-to-JSON writer, and the
    conversion of an HTML node tree into a JSON object. The HTML parser, the XML
    serialiser and `WebUtility.HtmlDecode` are not modelled; the decoder is a parameter. */
module JsonUtils {
  import opened Wrappers
  import opened Text

  // ---------------------------------------------------------------------------
  // Property names

  /** `CustomJsonWriter.WritePropertyName`: the name written for an XML attribute
      ("@name") or text node ("#text") loses its one marker character. */
  function WrittenName(name: string): (r: string)
    ensures |name| > 0 && (name[0] == '@' || name[0] == '#') ==> [name[0]] + r == name
    ensures !(|name| > 0 && (name[0] == '@' || name[0] == '#')) ==> r == name
  {
    if |name| > 0 && (name[0] == '@' || name[0] == '#') then name[1..] else name
  }

  /** Exactly one marker is removed: a marked name comes back as written, even when it
      starts with another marker, and an unmarked name is left alone. */
  lemma WrittenNameStripsOne(marker: char, name: string)
    requires marker == '@' || marker == '#'
    ensures WrittenName([marker] + name) == name
    ensures |name| == 0 || (name[0] != '@' && name[0] != '#') ==> WrittenName(name) == name
  {
    assert ([marker] + name)[1..] == name;
  }

  // ---------------------------------------------------------------------------
  // HTML to JSON

  datatype Attribute = Attribute(name: string, value: string)

  /** An HTML node: its attributes in document order, its inner text and its children. */
  datatype HtmlNode = HtmlNode(attributes: seq<Attribute>, innerText: string, children: seq<HtmlNode>)

  /** A JSON value as the conversion builds it: a string, or an array of objects. */
  datatype JToken = JString(text: string) | JArray(items: seq<JObject>)
  datatype JProperty = JProperty(name: string, value: JToken)
  datatype JObject = JObject(properties: seq<JProperty>)

  const InnerText: string := "inner_text"
  const Children: string := "children"

  function Names(props: seq<JProperty>): (r: seq<string>)
    ensures |r| == |props|
    ensures forall k :: 0 <= k < |props| ==> r[k] == props[k].name
  {
    if |props| == 0 then [] else [props[0].name] + Names(props[1..])
  }

  predicate Distinct(names: seq<string>) {
    forall i, j :: 0 <= i < j < |names| ==> names[i] != names[j]
  }

  /** `JObject.HasValues`. */
  predicate HasValues(o: JObject) {
    |o.properties| > 0
  }

  /** `JObject.Add`: a name already present raises an argument error. */
  function Add(o: JObject, name: string, v: JToken): (r: Result<JObject>)
    ensures r.Ok? <==> name !in Names(o.properties)
    ensures r.Ok? ==> r.value.properties == o.properties + [JProperty(name, v)]
    ensures r.Err? ==> r.error == Argument(name)
  {
    if name in Names(o.properties) then Err(Argument(name))
    else Ok(JObject(o.properties + [JProperty(name, v)]))
  }

  /** The properties the attributes give, in order, with decoded values. */
  function AttributeProperties(attrs: seq<Attribute>, decode: string -> string): (r: seq<JProperty>)
    ensures |r| == |attrs|
    ensures forall k :: 0 <= k < |attrs| ==> r[k] == JProperty(attrs[k].name, JString(decode(attrs[k].value)))
  {
    if |attrs| == 0 then [] else [JProperty(attrs[0].name, JString(decode(attrs[0].value)))] + AttributeProperties(attrs[1..], decode)
  }

  function AttributeNames(attrs: seq<Attribute>): (r: seq<string>)
    ensures |r| == |attrs|
    ensures forall k :: 0 <= k < |attrs| ==> r[k] == attrs[k].name
  {
    if |attrs| == 0 then [] else [attrs[0].name] + AttributeNames(attrs[1..])
  }

  /** The `foreach` adding each attribute in turn. */
  function AddAttributes(o: JObject, attrs: seq<Attribute>, decode: string -> string): Result<JObject>
    decreases |attrs|
  {
    if |attrs| == 0 then Ok(o)
    else
      match Add(o, attrs[0].name, JString(decode(attrs[0].value)))
      case Err(e) => Err(e)
      case Ok(next) => AddAttributes(next, attrs[1..], decode)
  }

  /** Adding the attributes to an object without repeated names succeeds exactly when the
      names stay distinct, and then appends one property per attribute. */
  lemma {:induction false} AttributesAdded(o: JObject, attrs: seq<Attribute>, decode: string -> string)
    requires Distinct(Names(o.properties))
    ensures var r := AddAttributes(o, attrs, decode);
      && (r.Ok? <==> Distinct(Names(o.properties) + AttributeNames(attrs)))
      && (r.Ok? ==> r.value.properties == o.properties + AttributeProperties(attrs, decode))
    decreases |attrs|
  {
    var names := Names(o.properties);
    if |attrs| == 0 {
      assert names + AttributeNames(attrs) == names;
      assert o.properties + AttributeProperties(attrs, decode) == o.properties;
    } else {
      var a := attrs[0];
      if a.name in names {
        AttributeRepeated(o, attrs, decode);
      } else {
        AttributeNew(o, attrs, decode);
        AttributeNewNames(o.properties, attrs, decode);
        AttributeNewProperties(o.properties, attrs, decode);
        var next := JObject(o.properties + [JProperty(a.name, JString(decode(a.value)))]);
        AttributesAdded(next, attrs[1..], decode);
      }
    }
  }

  /** A repeated attribute name raises. */
  lemma AttributeRepeated(o: JObject, attrs: seq<Attribute>, decode: string -> string)
    requires |attrs| > 0 && attrs[0].name in Names(o.properties)
    ensures AddAttributes(o, attrs, decode).Err?
    ensures !Distinct(Names(o.properties) + AttributeNames(attrs))
  {
    AttributeNamesStep(attrs);
    RepeatedName(Names(o.properties), attrs[0].name, AttributeNames(attrs[1..]));
  }

  /** A new attribute name leaves the remaining attributes to be added to the object
      extended by its property. */
  lemma AttributeNew(o: JObject, attrs: seq<Attribute>, decode: string -> string)
    requires |attrs| > 0 && attrs[0].name !in Names(o.properties)
    ensures var next := JObject(o.properties + [JProperty(attrs[0].name, JString(decode(attrs[0].value)))]);
      AddAttributes(o, attrs, decode) == AddAttributes(next, attrs[1..], decode)
  {
  }

  /** The extended object's names are still distinct, and the names and properties to
      come line up with those of the whole attribute list. */
  lemma AttributeNewNames(props: seq<JProperty>, attrs: seq<Attribute>, decode: string -> string)
    requires Distinct(Names(props)) && |attrs| > 0 && attrs[0].name !in Names(props)
    ensures var p := JProperty(attrs[0].name, JString(decode(attrs[0].value)));
      && Distinct(Names(props + [p]))
      && Names(props + [p]) + AttributeNames(attrs[1..]) == Names(props) + AttributeNames(attrs)
  {
    var p := JProperty(attrs[0].name, JString(decode(attrs[0].value)));
    AttributeNamesStep(attrs);
    NewName(props, p, AttributeNames(attrs[1..]));
  }

  lemma AttributeNewProperties(props: seq<JProperty>, attrs: seq<Attribute>, decode: string -> string)
    requires |attrs| > 0
    ensures var p := JProperty(attrs[0].name, JString(decode(attrs[0].value)));
      props + [p] + AttributeProperties(attrs[1..], decode) == props + AttributeProperties(attrs, decode)
  {
    var p := JProperty(attrs[0].name, JString(decode(attrs[0].value)));
    AttributePropertiesStep(attrs, decode);
    assert props + [p] + AttributeProperties(attrs[1..], decode) == props + ([p] + AttributeProperties(attrs[1..], decode));
  }

  lemma RepeatedName(names: seq<string>, n: string, rest: seq<string>)
    requires n in names
    ensures !Distinct(names + ([n] + rest))
  {
    var i :| 0 <= i < |names| && names[i] == n;
    assert (names + ([n] + rest))[i] == n;
    assert (names + ([n] + rest))[|names|] == n;
  }

  lemma NewName(props: seq<JProperty>, p: JProperty, rest: seq<string>)
    requires Distinct(Names(props)) && p.name !in Names(props)
    ensures Distinct(Names(props + [p]))
    ensures Names(props + [p]) + rest == Names(props) + ([p.name] + rest)
  {
    NamesAppend(props, [p]);
    assert Names([p]) == [p.name];
    DistinctOne(Names(props), p.name);
  }

  lemma AttributeNamesStep(attrs: seq<Attribute>)
    requires |attrs| > 0
    ensures AttributeNames(attrs) == [attrs[0].name] + AttributeNames(attrs[1..])
  {
  }

  lemma AttributePropertiesStep(attrs: seq<Attribute>, decode: string -> string)
    requires |attrs| > 0
    ensures AttributeProperties(attrs, decode) == [JProperty(attrs[0].name, JString(decode(attrs[0].value)))] + AttributeProperties(attrs[1..], decode)
  {
  }

  lemma {:induction false} NamesAppend(a: seq<JProperty>, b: seq<JProperty>)
    ensures Names(a + b) == Names(a) + Names(b)
  {
  }

  lemma DistinctOne(names: seq<string>, n: string)
    requires Distinct(names) && n !in names
    ensures Distinct(names + [n])
  {
  }

  /** A name appended to distinct names keeps them distinct exactly when it is new; the
      names after it then decide the rest. */
  lemma DistinctAppend(names: seq<string>, n: string, rest: seq<string>)
    ensures names + ([n] + rest) == names + [n] + rest
    ensures n in names ==> !Distinct(names + [n] + rest)
  {
    assert names + ([n] + rest) == names + [n] + rest;
    if n in names {
      var i :| 0 <= i < |names| && names[i] == n;
      assert (names + [n] + rest)[i] == (names + [n] + rest)[|names|];
    }
  }

  lemma DistinctPrefix(a: seq<string>, b: seq<string>)
    requires Distinct(a + b)
    ensures Distinct(a)
  {
    forall i, j | 0 <= i < j < |a|
      ensures a[i] != a[j]
    {
      assert a[i] == (a + b)[i] && a[j] == (a + b)[j];
    }
  }

  /** `Add` when `present`, and the object unchanged otherwise. */
  function AddWhen(o: JObject, present: bool, name: string, v: JToken): (r: Result<JObject>)
    ensures !present ==> r == Ok(o)
  {
    if present then Add(o, name, v) else Ok(o)
  }

  /** The name `AddWhen` adds: `name` when present, nothing otherwise. */
  function Named(present: bool, name: string): seq<string> {
    if present then [name] else []
  }

  /** An optional addition to an object without repeated names succeeds exactly when the
      names stay distinct, and then appends the one property. */
  lemma AddWhenNames(o: JObject, present: bool, name: string, v: JToken)
    requires Distinct(Names(o.properties))
    ensures AddWhen(o, present, name, v).Ok? <==> Distinct(Names(o.properties) + Named(present, name))
    ensures AddWhen(o, present, name, v).Ok? ==>
      && AddWhen(o, present, name, v).value.properties == o.properties + (if present then [JProperty(name, v)] else [])
      && Names(AddWhen(o, present, name, v).value.properties) == Names(o.properties) + Named(present, name)
  {
    var names := Names(o.properties);
    if present {
      DistinctAppend(names, name, []);
      assert names + [name] + [] == names + [name];
      if name !in names {
        DistinctOne(names, name);
        NamesAppend(o.properties, [JProperty(name, v)]);
      }
    } else {
      assert names + [] == names;
      assert o.properties + [] == o.properties;
    }
  }

  /** Every result succeeded, in which case the values in order, or the first failure. */
  function Collect<T>(results: seq<Result<T>>): (r: Result<seq<T>>)
    ensures r.Ok? <==> forall k :: 0 <= k < |results| ==> results[k].Ok?
    ensures r.Ok? ==> |r.value| == |results| && forall k :: 0 <= k < |results| ==> results[k] == Ok(r.value[k])
    ensures r.Err? ==> exists k :: 0 <= k < |results| && results[k] == Err(r.error) && forall j :: 0 <= j < k ==> results[j].Ok?
  {
    if |results| == 0 then Ok([])
    else
      var head :- results[0];
      var rest := Collect(results[1..]);
      assert forall k :: 1 <= k < |results| ==> results[k] == results[1..][k - 1];
      if rest.Err? then
        var k :| 0 <= k < |results[1..]| && results[1..][k] == Err(rest.error) && forall j :: 0 <= j < k ==> results[1..][j].Ok?;
        assert results[k + 1] == Err(rest.error);
        Err(rest.error)
      else Ok([head] + rest.value)
  }

  /** `Where(x => x.HasValues)`. */
  function NonEmpty(objects: seq<JObject>): (r: seq<JObject>)
    ensures forall k :: 0 <= k < |r| ==> HasValues(r[k])
    ensures |r| == 0 <==> forall k :: 0 <= k < |objects| ==> !HasValues(objects[k])
  {
    if |objects| == 0 then []
    else if HasValues(objects[0]) then [objects[0]] + NonEmpty(objects[1..])
    else
      var rest := NonEmpty(objects[1..]);
      assert forall k :: 1 <= k < |objects| ==> objects[k] == objects[1..][k - 1];
      rest
  }

  /** `ConvertHtmlNodeToJObject`: one property per attribute with the decoded value, then
      "inner_text" with the decoded trimmed text when it is not blank, then "children"
      with the non-empty conversions of the children when there are any. A repeated name
      raises an argument error, and so does a child whose conversion raises. */
  function Convert(decode: string -> string, node: HtmlNode): Result<JObject>
    decreases node
  {
    var converted := seq(|node.children|, k requires 0 <= k < |node.children| => Convert(decode, node.children[k]));
    Assemble(decode, node, Collect(converted))
  }

  /** The conversion of one node given its children's conversions: the attributes first. */
  function Assemble(decode: string -> string, node: HtmlNode, converted: Result<seq<JObject>>): Result<JObject> {
    var withAttributes :- AddAttributes(JObject([]), node.attributes, decode);
    AddText(decode, node, withAttributes, converted)
  }

  /** Then the trimmed text, when it is not blank. */
  function AddText(decode: string -> string, node: HtmlNode, o: JObject, converted: Result<seq<JObject>>): Result<JObject> {
    var text := Trim(node.innerText);
    var withText :- AddWhen(o, !IsBlank(text), InnerText, JString(decode(text)));
    AddChildren(withText, converted)
  }

  /** Then the children with properties, when there are any. */
  function AddChildren(o: JObject, converted: Result<seq<JObject>>): Result<JObject> {
    var children :- converted;
    var kept := NonEmpty(children);
    AddWhen(o, |kept| > 0, Children, JArray(kept))
  }

  /** The text property a node gets, if any. */
  function TextProperty(decode: string -> string, node: HtmlNode): seq<JProperty> {
    var text := Trim(node.innerText);
    if !IsBlank(text) then [JProperty(InnerText, JString(decode(text)))] else []
  }

  /** The children property an object gets from its children's conversions, if any. */
  function ChildrenProperty(children: seq<JObject>): seq<JProperty> {
    var kept := NonEmpty(children);
    if |kept| > 0 then [JProperty(Children, JArray(kept))] else []
  }

  lemma {:induction false} ChildrenStage(o: JObject, converted: Result<seq<JObject>>)
    requires Distinct(Names(o.properties))
    ensures AddChildren(o, converted).Ok? <==>
      converted.Ok? && Distinct(Names(o.properties) + Names(ChildrenProperty(converted.value)))
    ensures AddChildren(o, converted).Ok? ==>
      AddChildren(o, converted).value.properties == o.properties + ChildrenProperty(converted.value)
  {
    if converted.Ok? {
      var kept := NonEmpty(converted.value);
      AddWhenNames(o, |kept| > 0, Children, JArray(kept));
      assert Names(ChildrenProperty(converted.value)) == Named(|kept| > 0, Children);
    }
  }

  lemma {:induction false} TextStage(decode: string -> string, node: HtmlNode, o: JObject, converted: Result<seq<JObject>>)
    requires Distinct(Names(o.properties))
    ensures AddText(decode, node, o, converted).Ok? <==>
      converted.Ok? && Distinct(Names(o.properties) + Names(TextProperty(decode, node)) + Names(ChildrenProperty(converted.value)))
    ensures AddText(decode, node, o, converted).Ok? ==>
      AddText(decode, node, o, converted).value.properties == o.properties + TextProperty(decode, node) + ChildrenProperty(converted.value)
  {
    var text := Trim(node.innerText);
    var textProps := TextProperty(decode, node);
    AddWhenNames(o, !IsBlank(text), InnerText, JString(decode(text)));
    var t := AddWhen(o, !IsBlank(text), InnerText, JString(decode(text)));
    assert Names(textProps) == Named(!IsBlank(text), InnerText);
    if t.Ok? {
      NamesAppend(o.properties, textProps);
      ChildrenStage(t.value, converted);
    } else if converted.Ok? && Distinct(Names(o.properties) + Names(textProps) + Names(ChildrenProperty(converted.value))) {
      DistinctPrefix(Names(o.properties) + Names(textProps), Names(ChildrenProperty(converted.value)));
    }
  }

  /** The names an assembled object carries, given its children's conversions. */
  function AssembledNames(decode: string -> string, node: HtmlNode, children: seq<JObject>): seq<string> {
    AttributeNames(node.attributes) + Names(TextProperty(decode, node)) + Names(ChildrenProperty(children))
  }

  /** Assembling succeeds exactly when the children converted and the names are distinct;
      the object then holds the attribute properties, the text property and the children
      property, in that order. */
  lemma {:induction false} AssembleOutcome(decode: string -> string, node: HtmlNode, converted: Result<seq<JObject>>)
    ensures Assemble(decode, node, converted).Ok? <==>
      converted.Ok? && Distinct(AssembledNames(decode, node, converted.value))
    ensures Assemble(decode, node, converted).Ok? ==>
      Assemble(decode, node, converted).value.properties ==
        AttributeProperties(node.attributes, decode) + TextProperty(decode, node) + ChildrenProperty(converted.value)
  {
    var w := AddAttributes(JObject([]), node.attributes, decode);
    AttributesStage(decode, node);
    if w.Ok? {
      TextStage(decode, node, w.value, converted);
    } else if converted.Ok? {
      AttributesClash(decode, node, converted.value);
    }
  }

  /** Adding the attributes to an empty object succeeds exactly when their names are
      distinct, and then gives one property per attribute. */
  lemma AttributesStage(decode: string -> string, node: HtmlNode)
    ensures var w := AddAttributes(JObject([]), node.attributes, decode);
      && (w.Ok? <==> Distinct(AttributeNames(node.attributes)))
      && (w.Ok? ==> w.value.properties == AttributeProperties(node.attributes, decode)
                    && Names(w.value.properties) == AttributeNames(node.attributes))
  {
    var empty := JObject([]);
    assert Names(empty.properties) == [];
    AttributesAdded(empty, node.attributes, decode);
    EmptyFront(AttributeNames(node.attributes), AttributeProperties(node.attributes, decode));
    AttributeNamesOf(node.attributes, decode);
  }

  lemma EmptyFront(names: seq<string>, props: seq<JProperty>)
    ensures [] + names == names && [] + props == props
  {
  }

  /** Repeated attribute names repeat in the assembled names too. */
  lemma AttributesClash(decode: string -> string, node: HtmlNode, children: seq<JObject>)
    requires !Distinct(AttributeNames(node.attributes))
    ensures !Distinct(AssembledNames(decode, node, children))
  {
    var attrNames := AttributeNames(node.attributes);
    var textNames := Names(TextProperty(decode, node));
    if Distinct(AssembledNames(decode, node, children)) {
      DistinctPrefix(attrNames + textNames, Names(ChildrenProperty(children)));
      DistinctPrefix(attrNames, textNames);
    }
  }

  lemma AttributeNamesOf(attrs: seq<Attribute>, decode: string -> string)
    ensures Names(AttributeProperties(attrs, decode)) == AttributeNames(attrs)
  {
  }

  /** The children's conversions, in order. */
  function ChildConversions(decode: string -> string, node: HtmlNode): (r: seq<Result<JObject>>)
    ensures |r| == |node.children|
    ensures forall k :: 0 <= k < |node.children| ==> r[k] == Convert(decode, node.children[k])
  {
    seq(|node.children|, k requires 0 <= k < |node.children| => Convert(decode, node.children[k]))
  }

  /** Some child of the node converts to an object with properties. */
  predicate SomeChildHasValues(decode: string -> string, node: HtmlNode) {
    SomeHasValues(ChildConversions(decode, node))
  }

  predicate SomeHasValues(results: seq<Result<JObject>>) {
    exists k :: 0 <= k < |results| && results[k].Ok? && HasValues(results[k].value)
  }

  /** The names the conversion adds after the attributes. */
  function ExtraNames(decode: string -> string, node: HtmlNode): seq<string> {
    Named(!IsBlank(Trim(node.innerText)), InnerText) + Named(SomeChildHasValues(decode, node), Children)
  }

  /** When every conversion succeeded, some object is kept exactly when some conversion
      has properties. */
  lemma KeptExactlyWhenSome(results: seq<Result<JObject>>)
    requires Collect(results).Ok?
    ensures |NonEmpty(Collect(results).value)| > 0 <==> SomeHasValues(results)
  {
    var v := Collect(results).value;
    if SomeHasValues(results) {
      var k :| 0 <= k < |results| && results[k].Ok? && HasValues(results[k].value);
      assert results[k] == Ok(v[k]);
    }
  }

  /** The conversion assembles the node over its children's conversions. */
  lemma ConvertUnfolds(decode: string -> string, node: HtmlNode)
    ensures Convert(decode, node) == Assemble(decode, node, Collect(ChildConversions(decode, node)))
  {
  }

  /** With every child converted, the names added after the attributes are "inner_text"
      for non-blank text and "children" when some child has properties. */
  lemma ExtraNamesOf(decode: string -> string, node: HtmlNode, children: seq<JObject>)
    requires |NonEmpty(children)| > 0 <==> SomeChildHasValues(decode, node)
    ensures AssembledNames(decode, node, children) == AttributeNames(node.attributes) + ExtraNames(decode, node)
  {
    TextNames(decode, node);
    ChildrenNames(children);
  }

  lemma TextNames(decode: string -> string, node: HtmlNode)
    ensures Names(TextProperty(decode, node)) == Named(!IsBlank(Trim(node.innerText)), InnerText)
  {
  }

  lemma ChildrenNames(children: seq<JObject>)
    ensures Names(ChildrenProperty(children)) == Named(|NonEmpty(children)| > 0, Children)
  {
  }

  /** When the conversion raises: exactly when some child raises, or the attribute names
      together with "inner_text" (for non-blank text) and "children" (for a non-empty
      child) repeat a name. */
  lemma {:induction false} ConvertSucceeds(decode: string -> string, node: HtmlNode)
    ensures Convert(decode, node).Ok? <==>
      && Distinct(AttributeNames(node.attributes) + ExtraNames(decode, node))
      && forall k :: 0 <= k < |node.children| ==> Convert(decode, node.children[k]).Ok?
  {
    var converted := Collect(ChildConversions(decode, node));
    ConvertUnfolds(decode, node);
    AssembleOutcome(decode, node, converted);
    if converted.Ok? {
      KeptExactlyWhenSome(ChildConversions(decode, node));
      ExtraNamesOf(decode, node, converted.value);
    }
  }

  /** The shape of a converted object: the attribute properties first, then "inner_text"
      exactly when the trimmed text is not blank, then "children" exactly when some child
      has properties; no name repeats. */
  lemma {:induction false} ConvertShape(decode: string -> string, node: HtmlNode)
    requires Convert(decode, node).Ok?
    ensures var props := Convert(decode, node).value.properties;
      && Names(props) == AttributeNames(node.attributes) + ExtraNames(decode, node)
      && props[..|node.attributes|] == AttributeProperties(node.attributes, decode)
      && Distinct(Names(props))
  {
    var converted := Collect(ChildConversions(decode, node));
    ConvertUnfolds(decode, node);
    AssembleOutcome(decode, node, converted);
    KeptExactlyWhenSome(ChildConversions(decode, node));
    ExtraNamesOf(decode, node, converted.value);
    AssembledProperties(decode, node, converted.value);
  }

  /** The names of the assembled properties, and the attribute properties at their front. */
  lemma AssembledProperties(decode: string -> string, node: HtmlNode, children: seq<JObject>)
    ensures var props := AttributeProperties(node.attributes, decode) + TextProperty(decode, node) + ChildrenProperty(children);
      && Names(props) == AssembledNames(decode, node, children)
      && props[..|node.attributes|] == AttributeProperties(node.attributes, decode)
  {
    var attrs := AttributeProperties(node.attributes, decode);
    var props := attrs + TextProperty(decode, node) + ChildrenProperty(children);
    assert props[..|attrs|] == attrs;
    NamesAppend(attrs, TextProperty(decode, node));
    NamesAppend(attrs + TextProperty(decode, node), ChildrenProperty(children));
    AttributeNamesOf(node.attributes, decode);
  }

  /** A node with no attributes and blank text whose children all convert to empty
      objects converts to an empty object. */
  lemma ConvertEmpty(decode: string -> string, node: HtmlNode)
    requires |node.attributes| == 0 && IsBlank(Trim(node.innerText))
    requires forall k :: 0 <= k < |node.children| ==> Convert(decode, node.children[k]) == Ok(JObject([]))
    ensures Convert(decode, node) == Ok(JObject([]))
  {
    var converted := Collect(ChildConversions(decode, node));
    ConvertUnfolds(decode, node);
    AssembleOutcome(decode, node, converted);
    var v := converted.value;
    assert forall k :: 0 <= k < |v| ==> !HasValues(v[k]);
    assert AssembledNames(decode, node, v) == [];
  }
}
