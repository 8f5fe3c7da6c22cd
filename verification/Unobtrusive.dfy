/** Parsing elements into the validation options of their forms, as the object that does it. */
module Unobtrusive {
  import opened Common
  import opened Selectors
  import opened FieldLists
  import opened ModelNames
  import opened Adapters

  /** The part of a form's options that parsing writes: rules and messages by element name. */
  datatype Options = Options(rules: map<string, Rules>, messages: map<string, Messages>)

  type Infos = map<nat, Options>

  /** A form's options, empty when it has none yet. */
  function ValidationInfo(infos: Infos, form: nat): Options {
    if form in infos then infos[form] else Options(map[], map[])
  }

  predicate Ready(infos: Infos, form: nat, name: string) {
    form in infos && name in infos[form].rules && name in infos[form].messages
  }

  /** One assignment to the rules and messages of the element `name`. */
  function Assigned(infos: Infos, form: nat, name: string, w: Write): (after: Infos)
    requires Ready(infos, form, name)
    ensures Ready(after, form, name)
  {
    var o := infos[form];
    infos[form := Options(o.rules[name := SetRule(o.rules[name], w)],
                          o.messages[name := SetMessage(o.messages[name], w)])]
  }

  function AssignedAll(infos: Infos, form: nat, name: string, writes: seq<Write>): (after: Infos)
    requires Ready(infos, form, name)
    ensures Ready(after, form, name)
  {
    if writes == [] then infos
    else Assigned(AssignedAll(infos, form, name, Front(writes)), form, name, Last(writes))
  }

  /** The options with the element `name` given these rules and messages, and nothing else changed. */
  function Replaced(infos: Infos, form: nat, name: string, rules: Rules, messages: Messages): Infos {
    var o := ValidationInfo(infos, form);
    infos[form := Options(o.rules[name := rules], o.messages[name := messages])]
  }

  /** The options with the element given what these adapters assign. */
  function Applied(infos: Infos, form: nat, el: Element, adapters: seq<Adapter>, inputs: seq<Input>): Infos {
    var writes := ElementWrites(adapters, el, inputs);
    Replaced(infos, form, el.name, RulesAfter(writes), MessagesAfter(writes))
  }

  function ElementRules(adapters: seq<Adapter>, page: Page, el: Element): Rules {
    var rules := RulesAfter(ElementWrites(adapters, el, InputsOf(page, el)));
    if ElementThrows(adapters, el) then rules else rules[DUMMY := True]
  }

  function ElementMessages(adapters: seq<Adapter>, page: Page, el: Element): Messages {
    MessagesAfter(ElementWrites(adapters, el, InputsOf(page, el)))
  }

  /** Parsing one element replaces the rules and messages of its name in its form. */
  function Parsed(adapters: seq<Adapter>, page: Page, infos: Infos, el: Element): Infos {
    if el.form.None? then infos
    else Replaced(infos, el.form.value, el.name, ElementRules(adapters, page, el), ElementMessages(adapters, page, el))
  }

  function ParsedAll(adapters: seq<Adapter>, page: Page, infos: Infos, els: seq<Element>): Infos {
    if els == [] then infos
    else Parsed(adapters, page, ParsedAll(adapters, page, infos, Front(els)), Last(els))
  }

  predicate IsMarked(el: Element) {
    Attribute(el, "data-val") == Some("true")
  }

  predicate Stops(adapters: seq<Adapter>, el: Element) {
    IsMarked(el) && el.form.Some? && ElementThrows(adapters, el)
  }

  /** The marked elements up to and including the first whose adapters throw. */
  function Visited(adapters: seq<Adapter>, els: seq<Element>): seq<Element> {
    if els == [] then []
    else
      Visited(adapters, Front(els)) +
      if IsMarked(Last(els)) && forall e :: e in Front(els) ==> !Stops(adapters, e) then [Last(els)] else []
  }

  // ------------------------------------------------------------------------------------------
  // The object

  class Unobtrusive {
    var adapters: seq<Adapter>
    var infos: Infos

    constructor ()
      ensures adapters == [] && infos == map[]
    {
      adapters := [];
      infos := map[];
    }

    method Add(name: string, params: seq<string>, kind: Kind)
      modifies this`adapters
      ensures adapters == old(adapters) + [Adapter(name, params, kind)]
    {
      adapters := adapters + [Adapter(name, params, kind)];
    }

    /** The rule is named after the adapter unless it has a name of its own. */
    method AddBool(name: string, rule: Option<string>)
      modifies this`adapters
      ensures adapters == old(adapters) + [Adapter(name, [], Bool(if Truthy(rule) then rule.value else name))]
    {
      Add(name, [], Bool(if Truthy(rule) then rule.value else name));
    }

    /** The declared parameter defaults to `val`, but the value read is that of `attribute` as given. */
    method AddSingleVal(name: string, attribute: Option<string>, rule: Option<string>)
      modifies this`adapters
      ensures adapters == old(adapters) + [SingleValAdapter(name, attribute, rule)]
    {
      Add(name, [if Truthy(attribute) then attribute.value else "val"],
          SingleVal(NameOf(attribute), if Truthy(rule) then rule.value else name));
    }

    /** The declared parameters can be renamed, but the values read are always those of `min` and `max`. */
    method AddMinMax(name: string, minRule: string, maxRule: Option<string>, bothRule: Option<string>,
                     minAttribute: Option<string>, maxAttribute: Option<string>)
      modifies this`adapters
      ensures adapters == old(adapters) + [MinMaxAdapter(name, minRule, maxRule, bothRule, minAttribute, maxAttribute)]
    {
      Add(name, [if Truthy(minAttribute) then minAttribute.value else "min",
                 if Truthy(maxAttribute) then maxAttribute.value else "max"],
          MinMax(minRule, NameOf(maxRule), NameOf(bothRule)));
    }

    method AddSingleVals(hasExtensionMethod: bool)
      modifies this`adapters
      ensures adapters == old(adapters) + SingleVals(hasExtensionMethod)
    {
      if hasExtensionMethod {
        AddSingleVal("accept", Some("mimtype"), None);
        AddSingleVal("extension", Some("extension"), None);
      } else {
        AddSingleVal("extension", Some("extension"), Some("accept"));
      }
      AddSingleVal("regex", Some("pattern"), None);
    }

    method AddBools(names: seq<string>)
      modifies this`adapters
      ensures adapters == old(adapters) + Bools(names)
    {
      ghost var before := adapters;
      for i := 0 to |names|
        invariant adapters == before + Bools(names[..i])
      {
        AddBool(names[i], None);
        assert Front(names[..i + 1]) == names[..i];
      }
      assert names[..|names|] == names;
    }

    method AddMinMaxes()
      modifies this`adapters
      ensures adapters == old(adapters) + MINMAX_ADAPTERS
    {
      AddMinMax("length", "minlength", Some("maxlength"), Some("rangelength"), None, None);
      AddMinMax("range", "min", Some("max"), Some("range"), None, None);
      AddMinMax("minlength", "minlength", None, None, None, None);
      AddMinMax("maxlength", "minlength", Some("maxlength"), None, None, None);
    }

    method AddCustoms()
      modifies this`adapters
      ensures adapters == old(adapters) + CUSTOM_ADAPTERS
    {
      Add("equalto", ["other"], EqualTo);
      Add("required", [], Required);
      Add("remote", ["url", "type", "additionalfields"], RemoteCall);
      Add("password", ["min", "nonalphamin", "regex"], Password);
      Add("fileextensions", ["extensions"], FileExtensions);
    }

    /** The table the library registers on loading. */
    method AddBuiltIns(hasExtensionMethod: bool)
      modifies this`adapters
      ensures adapters == old(adapters) + BuiltIns(hasExtensionMethod)
    {
      AddSingleVals(hasExtensionMethod);
      AddBools(BOOL_NAMES);
      AddMinMaxes();
      AddCustoms();
    }

    method SetValidationValues(form: nat, name: string, rule: string, value: Value, message: string)
      requires Ready(infos, form, name)
      modifies this`infos
      ensures infos == Assigned(old(infos), form, name, Write(rule, value, message))
    {
      var o := infos[form];
      var rules, messages := o.rules[name], o.messages[name];
      rules := rules[rule := value];
      if message != "" {
        messages := messages[rule := message];
      }
      infos := infos[form := Options(o.rules[name := rules], o.messages[name := messages])];
    }

    method SetIfPresent(form: nat, name: string, rule: string, param: Option<string>, message: string)
      requires Ready(infos, form, name)
      modifies this`infos
      ensures Ready(infos, form, name)
      ensures infos == AssignedAll(old(infos), form, name, WithMessage(SetIfTruthy(rule, param), message))
    {
      if Truthy(param) {
        AssignedOne(infos, form, name, Write(rule, Text(param), message));
        SetValidationValues(form, name, rule, Text(param), message);
      }
    }

    /** The function of an adapter, run on an element whose message attribute is there. */
    method Adapt(ad: Adapter, el: Element, form: nat, message: string, inputs: seq<Input>) returns (threw: bool)
      requires Ready(infos, form, el.name) && Message(ad, el) == Some(message)
      modifies this`infos
      ensures threw <==> Throws(ad, el)
      ensures Ready(infos, form, el.name)
      ensures infos == AssignedAll(old(infos), form, el.name, AdapterWrites(ad, el, inputs))
    {
      threw := false;
      var name := el.name;
      match ad.kind
      case Bool(rule) =>
        AssignedOne(infos, form, name, Write(rule, True, message));
        SetValidationValues(form, name, rule, True, message);
      case SingleVal(attribute, rule) =>
        var value := Text(Param(ad, el, attribute));
        AssignedOne(infos, form, name, Write(rule, value, message));
        SetValidationValues(form, name, rule, value, message);
      case MinMax(minRule, maxRule, bothRule) =>
        var min, max := Param(ad, el, "min"), Param(ad, el, "max");
        if Truthy(min) && Truthy(max) {
          AssignedOne(infos, form, name, Write(bothRule, Both(min.value, max.value), message));
          SetValidationValues(form, name, bothRule, Both(min.value, max.value), message);
        } else if Truthy(min) {
          AssignedOne(infos, form, name, Write(minRule, Text(min), message));
          SetValidationValues(form, name, minRule, Text(min), message);
        } else if Truthy(max) {
          AssignedOne(infos, form, name, Write(maxRule, Text(max), message));
          SetValidationValues(form, name, maxRule, Text(max), message);
        }
      case EqualTo =>
        var other := Param(ad, el, "other");
        if other.None? {
          return true;
        }
        var fullName := AppendModelPrefix(other.value, GetModelPrefix(name));
        var target := Target(FirstMatch(inputs, NameSelector(fullName)));
        AssignedOne(infos, form, name, Write("equalTo", target, message));
        SetValidationValues(form, name, "equalTo", target, message);
      case Required =>
        if !el.isCheckbox {
          AssignedOne(infos, form, name, Write("required", True, message));
          SetValidationValues(form, name, "required", True, message);
        }
      case RemoteCall =>
        var fields := CollectFields(ad, el);
        var verb := Param(ad, el, "type");
        var value := Remote(Param(ad, el, "url"), if Truthy(verb) then verb.value else "GET", fields);
        AssignedOne(infos, form, name, Write("remote", value, message));
        SetValidationValues(form, name, "remote", value, message);
      case Password =>
        ghost var start := infos;
        SetIfPresent(form, name, "minlength", Param(ad, el, "min"), message);
        SetIfPresent(form, name, "nonalphamin", Param(ad, el, "nonalphamin"), message);
        SetIfPresent(form, name, "regex", Param(ad, el, "regex"), message);
        PasswordWrites(ad, el, inputs, start, form, message);
      case FileExtensions =>
        var value := Text(Param(ad, el, "extensions"));
        AssignedOne(infos, form, name, Write("extension", value, message));
        SetValidationValues(form, name, "extension", value, message);
    }

    method CollectFields(ad: Adapter, el: Element) returns (fields: set<string>)
      ensures fields == RemoteFields(ad, el)
    {
      var listed, prefix := Param(ad, el, "additionalfields"), GetModelPrefix(el.name);
      var names := SplitAndTrim(if Truthy(listed) then listed.value else el.name);
      fields := {};
      for i := 0 to |names|
        invariant fields == set k | 0 <= k < i :: AppendModelPrefix(names[k], prefix)
      {
        fields := fields + {AppendModelPrefix(names[i], prefix)};
      }
    }

    /** Adapter `i` on an element to which the adapters before it have been applied. */
    method RunAdapter(el: Element, form: nat, inputs: seq<Input>, i: nat, ghost base: Infos) returns (threw: bool)
      requires i < |adapters| && !ElementThrows(adapters[..i], el)
      requires infos == Applied(base, form, el, adapters[..i], inputs)
      modifies this`infos
      ensures threw <==> AdapterThrows(adapters[i], el)
      ensures infos == Applied(base, form, el, adapters[..i + 1], inputs)
    {
      var ad := adapters[i];
      var message := Message(ad, el);
      ghost var done := ElementWrites(adapters[..i], el, inputs);
      assert Front(adapters[..i + 1]) == adapters[..i] && Last(adapters[..i + 1]) == ad;
      if message.None? {
        assert done + [] == done;
        return false;
      }
      ReplacedThenAssigned(base, form, el.name, done, AdapterWrites(ad, el, inputs));
      threw := Adapt(ad, el, form, message.value, inputs);
    }

    method RunAdapters(el: Element, form: nat, inputs: seq<Input>, ghost base: Infos) returns (threw: bool)
      requires infos == Replaced(base, form, el.name, map[], map[])
      modifies this`infos
      ensures threw <==> ElementThrows(adapters, el)
      ensures infos == Applied(base, form, el, adapters, inputs)
    {
      for i := 0 to |adapters|
        invariant !ElementThrows(adapters[..i], el)
        invariant infos == Applied(base, form, el, adapters[..i], inputs)
      {
        threw := RunAdapter(el, form, inputs, i, base);
        if threw {
          ThrowStops(adapters, i, el, inputs);
          ThrowStops(adapters[..i + 1], i, el, inputs);
          assert adapters[..i + 1][..i] == adapters[..i];
          return true;
        }
      }
      assert adapters[..|adapters|] == adapters;
      return false;
    }

    method ParseElement(page: Page, el: Element) returns (threw: bool)
      modifies this`infos
      ensures infos == Parsed(adapters, page, old(infos), el)
      ensures threw <==> el.form.Some? && ElementThrows(adapters, el)
    {
      if el.form.None? {
        return false;
      }
      var form, name := el.form.value, el.name;
      ghost var base := infos;
      infos := Replaced(infos, form, name, map[], map[]);
      threw := RunAdapters(el, form, InputsOf(page, el), base);
      if threw {
        return true;
      }
      var o := infos[form];
      var rules, messages := o.rules[name], o.messages[name];
      ReplaceAgain(base, form, name, rules, messages, rules[DUMMY := True], messages);
      infos := infos[form := Options(o.rules[name := rules[DUMMY := True]], o.messages[name := messages])];
    }

    /** Parse every marked element in order; an element that throws ends the loop. */
    method Parse(page: Page, els: seq<Element>) returns (threw: bool)
      modifies this`infos
      ensures infos == ParsedAll(adapters, page, old(infos), Visited(adapters, els))
      ensures threw <==> exists el :: el in els && Stops(adapters, el)
    {
      threw := false;
      for i := 0 to |els|
        invariant !threw && forall el :: el in els[..i] ==> !Stops(adapters, el)
        invariant infos == ParsedAll(adapters, page, old(infos), Visited(adapters, els[..i]))
      {
        VisitOne(adapters, page, old(infos), els, i);
        if Attribute(els[i], "data-val") == Some("true") {
          threw := ParseElement(page, els[i]);
          if threw {
            NothingAfterAStop(adapters, els, i);
            return true;
          }
        }
      }
      assert els[..|els|] == els;
    }
  }

  /** One turn of the loop over the elements. */
  lemma {:induction false} VisitOne(adapters: seq<Adapter>, page: Page, infos: Infos, els: seq<Element>, i: nat)
    requires i < |els| && forall el :: el in els[..i] ==> !Stops(adapters, el)
    ensures var before := ParsedAll(adapters, page, infos, Visited(adapters, els[..i]));
      ParsedAll(adapters, page, infos, Visited(adapters, els[..i + 1])) ==
      if IsMarked(els[i]) then Parsed(adapters, page, before, els[i]) else before
    ensures forall el :: el in els[..i + 1] <==> el in els[..i] || el == els[i]
    ensures els[i] in els
  {
    FrontOfAppend(els[..i], els[i]);
    assert els[..i + 1] == els[..i] + [els[i]];
    var visited := Visited(adapters, els[..i]);
    if IsMarked(els[i]) {
      assert Visited(adapters, els[..i + 1]) == visited + [els[i]];
      FrontOfAppend(visited, els[i]);
    } else {
      assert Visited(adapters, els[..i + 1]) == visited + [] == visited;
    }
  }

  /** A name that is left out becomes the property `undefined`. */
  function NameOf(name: Option<string>): string {
    if name.Some? then name.value else UNDEFINED
  }

  function SingleValAdapter(name: string, attribute: Option<string>, rule: Option<string>): Adapter {
    Adapter(name, [if Truthy(attribute) then attribute.value else "val"],
            SingleVal(NameOf(attribute), if Truthy(rule) then rule.value else name))
  }

  function MinMaxAdapter(name: string, minRule: string, maxRule: Option<string>, bothRule: Option<string>,
                         minAttribute: Option<string>, maxAttribute: Option<string>): Adapter
  {
    Adapter(name, [if Truthy(minAttribute) then minAttribute.value else "min",
                   if Truthy(maxAttribute) then maxAttribute.value else "max"],
            MinMax(minRule, NameOf(maxRule), NameOf(bothRule)))
  }

  function Bools(names: seq<string>): seq<Adapter> {
    if names == [] then [] else Bools(Front(names)) + [Adapter(Last(names), [], Bool(Last(names)))]
  }

  function SingleVals(hasExtensionMethod: bool): seq<Adapter> {
    (if hasExtensionMethod
     then [Adapter("accept", ["mimtype"], SingleVal("mimtype", "accept")),
           Adapter("extension", ["extension"], SingleVal("extension", "extension"))]
     else [Adapter("extension", ["extension"], SingleVal("extension", "accept"))]) +
    [Adapter("regex", ["pattern"], SingleVal("pattern", "regex"))]
  }

  const BOOL_NAMES: seq<string> := ["creditcard", "date", "digits", "email", "number", "url"]

  const MINMAX_ADAPTERS: seq<Adapter> := [
    Adapter("length", ["min", "max"], MinMax("minlength", "maxlength", "rangelength")),
    Adapter("range", ["min", "max"], MinMax("min", "max", "range")),
    Adapter("minlength", ["min", "max"], MinMax("minlength", UNDEFINED, UNDEFINED)),
    Adapter("maxlength", ["min", "max"], MinMax("minlength", "maxlength", UNDEFINED))]

  const CUSTOM_ADAPTERS: seq<Adapter> := [
    Adapter("equalto", ["other"], EqualTo),
    Adapter("required", [], Required),
    Adapter("remote", ["url", "type", "additionalfields"], RemoteCall),
    Adapter("password", ["min", "nonalphamin", "regex"], Password),
    Adapter("fileextensions", ["extensions"], FileExtensions)]

  function BuiltIns(hasExtensionMethod: bool): seq<Adapter> {
    SingleVals(hasExtensionMethod) + Bools(BOOL_NAMES) + MINMAX_ADAPTERS + CUSTOM_ADAPTERS
  }

  // ------------------------------------------------------------------------------------------
  // Proof steps of the methods

  lemma {:induction false} AssignedOne(infos: Infos, form: nat, name: string, w: Write)
    requires Ready(infos, form, name)
    ensures AssignedAll(infos, form, name, [w]) == Assigned(infos, form, name, w)
  {
    assert Front([w]) == [];
  }

  lemma {:induction false} AssignedConcat(infos: Infos, form: nat, name: string, a: seq<Write>, b: seq<Write>)
    requires Ready(infos, form, name)
    ensures AssignedAll(infos, form, name, a + b) == AssignedAll(AssignedAll(infos, form, name, a), form, name, b)
  {
    if b == [] {
      assert a + b == a;
    } else {
      assert Front(a + b) == a + Front(b);
      AssignedConcat(infos, form, name, a, Front(b));
    }
  }

  lemma {:induction false} PasswordWrites(ad: Adapter, el: Element, inputs: seq<Input>, infos: Infos, form: nat, message: string)
    requires ad.kind.Password? && Message(ad, el) == Some(message) && Ready(infos, form, el.name)
    ensures var a := WithMessage(SetIfTruthy("minlength", Param(ad, el, "min")), message);
      var b := WithMessage(SetIfTruthy("nonalphamin", Param(ad, el, "nonalphamin")), message);
      var c := WithMessage(SetIfTruthy("regex", Param(ad, el, "regex")), message);
      AssignedAll(infos, form, el.name, AdapterWrites(ad, el, inputs)) ==
      AssignedAll(AssignedAll(AssignedAll(infos, form, el.name, a), form, el.name, b), form, el.name, c)
  {
    var a := WithMessage(SetIfTruthy("minlength", Param(ad, el, "min")), message);
    var b := WithMessage(SetIfTruthy("nonalphamin", Param(ad, el, "nonalphamin")), message);
    var c := WithMessage(SetIfTruthy("regex", Param(ad, el, "regex")), message);
    assert AdapterWrites(ad, el, inputs) == (a + b) + c;
    AssignedConcat(infos, form, el.name, a + b, c);
    AssignedConcat(infos, form, el.name, a, b);
  }

  lemma {:induction false} ReplaceAgain(infos: Infos, form: nat, name: string, rules: Rules, messages: Messages,
                                        rules2: Rules, messages2: Messages)
    ensures var once := Replaced(infos, form, name, rules, messages);
      once[form := Options(once[form].rules[name := rules2], once[form].messages[name := messages2])]
      == Replaced(infos, form, name, rules2, messages2)
  {
    var o := ValidationInfo(infos, form);
    assert o.rules[name := rules][name := rules2] == o.rules[name := rules2];
    assert o.messages[name := messages][name := messages2] == o.messages[name := messages2];
  }

  /** Assigning to a fresh element is replacing its rules by those of all assignments. */
  lemma {:induction false} ReplacedThenAssigned(infos: Infos, form: nat, name: string, done: seq<Write>, more: seq<Write>)
    ensures var before := Replaced(infos, form, name, RulesAfter(done), MessagesAfter(done));
      AssignedAll(before, form, name, more) ==
      Replaced(infos, form, name, RulesAfter(done + more), MessagesAfter(done + more))
  {
    if more == [] {
      assert done + more == done;
    } else {
      ReplacedThenAssigned(infos, form, name, done, Front(more));
      assert Front(done + more) == done + Front(more) && Last(done + more) == Last(more);
      var writes := done + Front(more);
      ReplaceAgain(infos, form, name, RulesAfter(writes), MessagesAfter(writes),
                   RulesAfter(done + more), MessagesAfter(done + more));
    }
  }

  lemma {:induction false} ThrowStops(adapters: seq<Adapter>, i: nat, el: Element, inputs: seq<Input>)
    requires i < |adapters| && AdapterThrows(adapters[i], el)
    ensures ElementThrows(adapters, el)
    ensures ElementWrites(adapters, el, inputs) == ElementWrites(adapters[..i], el, inputs)
  {
    if i == |adapters| - 1 {
      assert ElementWrites(Front(adapters), el, inputs) + [] == ElementWrites(Front(adapters), el, inputs);
    } else {
      assert Front(adapters)[..i] == adapters[..i];
      ThrowStops(Front(adapters), i, el, inputs);
    }
  }

  lemma {:induction false} NothingAfterAStop(adapters: seq<Adapter>, els: seq<Element>, i: nat)
    requires i < |els| && Stops(adapters, els[i])
    ensures Visited(adapters, els) == Visited(adapters, els[..i + 1])
  {
    if i == |els| - 1 {
      assert els[..i + 1] == els;
    } else {
      assert Front(els)[..i + 1] == els[..i + 1];
      assert els[i] == Front(els)[i];
      NothingAfterAStop(adapters, Front(els), i);
    }
  }

  // ------------------------------------------------------------------------------------------
  // What parsing leaves behind

  function RulesAt(infos: Infos, form: nat, name: string): Option<Rules> {
    if form in infos && name in infos[form].rules then Some(infos[form].rules[name]) else None
  }

  function MessagesAt(infos: Infos, form: nat, name: string): Option<Messages> {
    if form in infos && name in infos[form].messages then Some(infos[form].messages[name]) else None
  }

  predicate IsAt(el: Element, form: nat, name: string) {
    el.form == Some(form) && el.name == name
  }

  /** Element `k` is the last one of its name in its form. */
  ghost predicate IsLastAt(els: seq<Element>, k: nat, form: nat, name: string) {
    && k < |els| && IsAt(els[k], form, name)
    && forall j :: k < j < |els| ==> !IsAt(els[j], form, name)
  }

  /** After parsing, a name in a form has exactly the rules and messages of its last parsed element there ... */
  lemma {:induction false} LastElementWins(adapters: seq<Adapter>, page: Page, infos: Infos, els: seq<Element>,
                                           k: nat, form: nat, name: string)
    requires IsLastAt(els, k, form, name)
    ensures RulesAt(ParsedAll(adapters, page, infos, els), form, name) == Some(ElementRules(adapters, page, els[k]))
    ensures MessagesAt(ParsedAll(adapters, page, infos, els), form, name) == Some(ElementMessages(adapters, page, els[k]))
  {
    if k < |els| - 1 {
      assert !IsAt(Last(els), form, name);
      LastElementWins(adapters, page, infos, Front(els), k, form, name);
      OtherElementsStay(adapters, page, ParsedAll(adapters, page, infos, Front(els)), Last(els), form, name);
    }
  }

  lemma {:induction false} OtherElementsStay(adapters: seq<Adapter>, page: Page, infos: Infos, el: Element,
                                             form: nat, name: string)
    requires !IsAt(el, form, name)
    ensures RulesAt(Parsed(adapters, page, infos, el), form, name) == RulesAt(infos, form, name)
    ensures MessagesAt(Parsed(adapters, page, infos, el), form, name) == MessagesAt(infos, form, name)
  {
  }

  /** ... and a name with no parsed element in that form keeps what it had. */
  lemma {:induction false} UnparsedNamesStay(adapters: seq<Adapter>, page: Page, infos: Infos, els: seq<Element>,
                                             form: nat, name: string)
    requires forall el :: el in els ==> !IsAt(el, form, name)
    ensures RulesAt(ParsedAll(adapters, page, infos, els), form, name) == RulesAt(infos, form, name)
    ensures MessagesAt(ParsedAll(adapters, page, infos, els), form, name) == MessagesAt(infos, form, name)
  {
    if els != [] {
      UnparsedNamesStay(adapters, page, infos, Front(els), form, name);
      OtherElementsStay(adapters, page, ParsedAll(adapters, page, infos, Front(els)), Last(els), form, name);
    }
  }

  /** If no element throws, every marked element is visited, in order. */
  lemma {:induction false} AllMarkedAreVisited(adapters: seq<Adapter>, els: seq<Element>)
    requires forall el :: el in els ==> !Stops(adapters, el)
    ensures Visited(adapters, els) == MarkedOf(els)
  {
    if els != [] {
      assert forall el :: el in Front(els) ==> el in els;
      AllMarkedAreVisited(adapters, Front(els));
    }
  }

  function MarkedOf(els: seq<Element>): seq<Element> {
    if els == [] then []
    else MarkedOf(Front(els)) + if Attribute(Last(els), "data-val") == Some("true") then [Last(els)] else []
  }
}
