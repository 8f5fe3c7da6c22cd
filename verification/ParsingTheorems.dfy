/** What parsing guarantees for whole pages and for the built-in adapters. */
module ParsingTheorems {
  import opened Common
  import opened Selectors
  import opened FieldLists
  import opened ModelNames
  import opened Adapters
  import opened Unobtrusive
  import opened Utf16

  // ------------------------------------------------------------------------------------------
  // Parsing again changes nothing

  lemma {:induction false} LastExists(els: seq<Element>, form: nat, name: string) returns (k: nat)
    requires exists el :: el in els && IsAt(el, form, name)
    ensures IsLastAt(els, k, form, name)
  {
    k := |els| - 1;
    if !IsAt(Last(els), form, name) {
      var el :| el in els && IsAt(el, form, name);
      assert el in Front(els);
      k := LastExists(Front(els), form, name);
    }
  }

  lemma {:induction false} FormsAfterParsing(adapters: seq<Adapter>, page: Page, infos: Infos, els: seq<Element>, form: nat)
    ensures form in ParsedAll(adapters, page, infos, els) <==>
            form in infos || exists el :: el in els && el.form == Some(form)
  {
    if els != [] {
      FormsAfterParsing(adapters, page, infos, Front(els), form);
      assert forall el :: el in els <==> el in Front(els) || el == Last(els);
    }
  }

  lemma {:induction false} EntriesStayOnReparse(adapters: seq<Adapter>, page: Page, infos: Infos, els: seq<Element>,
                                                form: nat, name: string)
    ensures var once := ParsedAll(adapters, page, infos, els);
      var twice := ParsedAll(adapters, page, once, els);
      RulesAt(twice, form, name) == RulesAt(once, form, name)
      && MessagesAt(twice, form, name) == MessagesAt(once, form, name)
  {
    var once := ParsedAll(adapters, page, infos, els);
    if exists el :: el in els && IsAt(el, form, name) {
      var k := LastExists(els, form, name);
      LastElementWins(adapters, page, infos, els, k, form, name);
      LastElementWins(adapters, page, once, els, k, form, name);
    } else {
      UnparsedNamesStay(adapters, page, once, els, form, name);
    }
  }

  /** Parsing the same elements a second time changes no rule, no message and no form. */
  lemma {:induction false} ParsingIsIdempotent(adapters: seq<Adapter>, page: Page, infos: Infos, els: seq<Element>)
    ensures var once := ParsedAll(adapters, page, infos, els);
      ParsedAll(adapters, page, once, els) == once
  {
    var once := ParsedAll(adapters, page, infos, els);
    var twice := ParsedAll(adapters, page, once, els);
    forall form
      ensures form in twice <==> form in once
      ensures form in once ==> twice[form] == once[form]
    {
      FormsAfterParsing(adapters, page, infos, els, form);
      FormsAfterParsing(adapters, page, once, els, form);
      if form in once {
        SameOptions(adapters, page, infos, els, form);
      }
    }
  }

  lemma {:induction false} SameOptions(adapters: seq<Adapter>, page: Page, infos: Infos, els: seq<Element>, form: nat)
    requires form in ParsedAll(adapters, page, infos, els)
    requires form in ParsedAll(adapters, page, ParsedAll(adapters, page, infos, els), els)
    ensures var once := ParsedAll(adapters, page, infos, els);
      ParsedAll(adapters, page, once, els)[form] == once[form]
  {
    var once := ParsedAll(adapters, page, infos, els);
    var a, b := once[form], ParsedAll(adapters, page, once, els)[form];
    forall name
      ensures name in b.rules <==> name in a.rules
      ensures name in a.rules ==> b.rules[name] == a.rules[name]
      ensures name in b.messages <==> name in a.messages
      ensures name in a.messages ==> b.messages[name] == a.messages[name]
    {
      EntriesStayOnReparse(adapters, page, infos, els, form, name);
    }
    assert a.rules == b.rules && a.messages == b.messages;
  }

  // ------------------------------------------------------------------------------------------
  // The built-in adapters

  /** The adapter never sets the rule `__dummy__`. */
  predicate AvoidsDummy(ad: Adapter) {
    match ad.kind
    case Bool(rule) => rule != DUMMY
    case SingleVal(_, rule) => rule != DUMMY
    case MinMax(minRule, maxRule, bothRule) => minRule != DUMMY && maxRule != DUMMY && bothRule != DUMMY
    case _ => true
  }

  lemma {:induction false} BoolsAvoidDummy(names: seq<string>)
    requires DUMMY !in names
    ensures forall ad :: ad in Bools(names) ==> AvoidsDummy(ad)
  {
    if names != [] {
      BoolsAvoidDummy(Front(names));
      assert Last(names) in names;
    }
  }

  lemma {:induction false} BuiltInsAvoidDummy(hasExtensionMethod: bool)
    ensures forall ad :: ad in BuiltIns(hasExtensionMethod) ==> AvoidsDummy(ad)
  {
    OnlyDummyStartsWithUnderscore();
    BoolsAvoidDummy(BOOL_NAMES);
    var a, b, c, d := SingleVals(hasExtensionMethod), Bools(BOOL_NAMES), MINMAX_ADAPTERS, CUSTOM_ADAPTERS;
    assert BuiltIns(hasExtensionMethod) == a + b + c + d;
    assert forall ad :: ad in BuiltIns(hasExtensionMethod) <==> ad in a || ad in b || ad in c || ad in d;
  }

  lemma {:induction false} OnlyDummyStartsWithUnderscore()
    ensures DUMMY !in BOOL_NAMES
    ensures forall ad :: ad in MINMAX_ADAPTERS ==> AvoidsDummy(ad)
    ensures forall ad :: ad in CUSTOM_ADAPTERS ==> AvoidsDummy(ad)
    ensures forall h, ad :: ad in SingleVals(h) ==> AvoidsDummy(ad)
  {
    assert DUMMY[0] == '_';
    assert forall name :: name in BOOL_NAMES ==> name[0] != '_';
  }

  lemma {:induction false} WritesAvoidDummy(adapters: seq<Adapter>, el: Element, inputs: seq<Input>)
    requires forall ad :: ad in adapters ==> AvoidsDummy(ad)
    ensures forall i :: 0 <= i < |ElementWrites(adapters, el, inputs)| ==>
              ElementWrites(adapters, el, inputs)[i].rule != DUMMY
  {
    if adapters != [] {
      WritesAvoidDummy(Front(adapters), el, inputs);
      assert AvoidsDummy(Last(adapters));
      var ad := Last(adapters);
      if !Throws(ad, el) {
        assert forall i :: 0 <= i < |Sets(ad, el, inputs)| ==> Sets(ad, el, inputs)[i].0 != DUMMY;
      }
    }
  }

  /**
   * Under the built-in adapters an element without a throwing adapter gets the rule `__dummy__`, no
   * message for it, and messages only for rules it has; all its other rules have a message if and
   * only if each was set at least once with a non-empty one.
   */
  lemma {:induction false} BuiltInKeys(hasExtensionMethod: bool, page: Page, el: Element)
    requires !ElementThrows(BuiltIns(hasExtensionMethod), el)
    ensures var rules := ElementRules(BuiltIns(hasExtensionMethod), page, el);
      var messages := ElementMessages(BuiltIns(hasExtensionMethod), page, el);
      var writes := ElementWrites(BuiltIns(hasExtensionMethod), el, InputsOf(page, el));
      && messages.Keys <= rules.Keys - {DUMMY} && DUMMY in rules
      && (rules.Keys == messages.Keys + {DUMMY} <==> EveryRuleHadAMessage(writes))
  {
    var writes := ElementWrites(BuiltIns(hasExtensionMethod), el, InputsOf(page, el));
    BuiltInsAvoidDummy(hasExtensionMethod);
    WritesAvoidDummy(BuiltIns(hasExtensionMethod), el, InputsOf(page, el));
    KeysOfWrites(writes);
    assert ElementRules(BuiltIns(hasExtensionMethod), page, el) == RulesAfter(writes)[DUMMY := True];
    assert ElementMessages(BuiltIns(hasExtensionMethod), page, el) == MessagesAfter(writes);
  }

  lemma {:induction false} KeysOfWrites(writes: seq<Write>)
    requires forall i :: 0 <= i < |writes| ==> writes[i].rule != DUMMY
    ensures var rules, messages := RulesAfter(writes)[DUMMY := True], MessagesAfter(writes);
      && messages.Keys <= rules.Keys - {DUMMY}
      && (rules.Keys == messages.Keys + {DUMMY} <==> EveryRuleHadAMessage(writes))
  {
    RuleIsThereIff(writes, DUMMY);
    MessageKeysAreRuleKeys(writes);
    KeysWithDummy(RulesAfter(writes), MessagesAfter(writes));
  }

  lemma KeysWithDummy(rules: Rules, messages: Messages)
    requires DUMMY !in rules && messages.Keys <= rules.Keys
    ensures messages.Keys <= rules[DUMMY := True].Keys - {DUMMY}
    ensures rules[DUMMY := True].Keys == messages.Keys + {DUMMY} <==> messages.Keys == rules.Keys
  {
    assert rules[DUMMY := True].Keys - {DUMMY} == rules.Keys;
    assert (messages.Keys + {DUMMY}) - {DUMMY} == messages.Keys;
  }

  /** Non-empty message attributes are enough. */
  lemma {:induction false} NonEmptyMessagesAreKept(hasExtensionMethod: bool, page: Page, el: Element)
    requires !ElementThrows(BuiltIns(hasExtensionMethod), el)
    requires forall ad :: ad in BuiltIns(hasExtensionMethod) ==> Message(ad, el) != Some("")
    ensures ElementRules(BuiltIns(hasExtensionMethod), page, el).Keys ==
            ElementMessages(BuiltIns(hasExtensionMethod), page, el).Keys + {DUMMY}
  {
    BuiltInKeys(hasExtensionMethod, page, el);
    var writes := ElementWrites(BuiltIns(hasExtensionMethod), el, InputsOf(page, el));
    MessagesAreNonEmpty(BuiltIns(hasExtensionMethod), el, InputsOf(page, el));
    forall i | 0 <= i < |writes|
      ensures HasMessage(writes, writes[i].rule)
    {
      assert writes[i].message != "";
    }
  }

  lemma {:induction false} MessagesAreNonEmpty(adapters: seq<Adapter>, el: Element, inputs: seq<Input>)
    requires forall ad :: ad in adapters ==> Message(ad, el) != Some("")
    ensures forall i :: 0 <= i < |ElementWrites(adapters, el, inputs)| ==>
              ElementWrites(adapters, el, inputs)[i].message != ""
  {
    if adapters != [] {
      MessagesAreNonEmpty(Front(adapters), el, inputs);
      assert Message(Last(adapters), el) != Some("");
    }
  }

  /**
   * The `equalto` adapter on field `prefix + field` with `*.other` targets the first input of the form
   * named exactly `prefix + other`, and nothing if there is none - for a prefix without replacement
   * patterns, and unless the form has a single input and the browser misreads a NUL in the name.
   */
  lemma {:induction false} EqualToTargetsTheSibling(ad: Adapter, el: Element, inputs: seq<Input>,
                                                    prefix: string, field: string, other: string)
    requires ad == Adapter("equalto", ["other"], EqualTo)
    requires el.name == prefix + field && IsModelPrefix(prefix) && DotFree(field) && !HasPattern(prefix)
    requires Attribute(el, "data-val-equalto-other") == Some("*." + other)
    ensures !Throws(ad, el) && |Sets(ad, el, inputs)| == 1 && Sets(ad, el, inputs)[0].1.Target?
    ensures |inputs| != 1 || !NulIsMisread(prefix + other) ==>
              IsFirstNamed(inputs, Sets(ad, el, inputs)[0].1.input, prefix + other)
  {
    assert "data-val-" + ad.name + "-" + "other" == "data-val-equalto-other";
    assert Param(ad, el, "other") == Some("*." + other);
    RelativeNameIsSiblingIff(prefix, field, other);
    LookupFindsTheFirst(inputs, prefix + other);
  }

  /**
   * A `remote` field list in any spacing names exactly the fields listed: absolute names as they are, and
   * relative ones as the siblings under the element's own prefix, if that has no replacement pattern.
   */
  lemma {:induction false} RemoteFieldsAreTheListed(ad: Adapter, el: Element, fields: seq<Padded>)
    requires ad.kind.RemoteCall? && fields != [] && forall i :: 0 <= i < |fields| ==> IsField(fields[i])
    requires Param(ad, el, "additionalfields") == Some(Join(fields)) && Join(fields) != ""
    ensures forall name :: name in RemoteFields(ad, el) <==>
              exists i :: 0 <= i < |fields| && name == AppendModelPrefix(fields[i].token, GetModelPrefix(el.name))
    ensures !HasPattern(GetModelPrefix(el.name)) ==>
              forall i :: 0 <= i < |fields| ==>
                AppendModelPrefix(fields[i].token, GetModelPrefix(el.name)) ==
                if "*." <= fields[i].token then GetModelPrefix(el.name) + fields[i].token[2..] else fields[i].token
  {
    SplittingInvertsJoining(fields);
    var names, prefix := TokensOf(fields), GetModelPrefix(el.name);
    forall name
      ensures name in RemoteFields(ad, el) <==>
              exists i :: 0 <= i < |fields| && name == AppendModelPrefix(fields[i].token, prefix)
    {
      if name in RemoteFields(ad, el) {
        var i :| 0 <= i < |names| && name == AppendModelPrefix(names[i], prefix);
        assert name == AppendModelPrefix(fields[i].token, prefix);
      }
      if i :| 0 <= i < |fields| && name == AppendModelPrefix(fields[i].token, prefix) {
        assert name == AppendModelPrefix(names[i], prefix);
      }
    }
    forall i | 0 <= i < |fields| && !HasPattern(prefix)
      ensures AppendModelPrefix(fields[i].token, prefix) ==
              if "*." <= fields[i].token then prefix + fields[i].token[2..] else fields[i].token
    {
      NoPatternMeansItself(prefix, if |fields[i].token| >= 2 then fields[i].token[2..] else "");
    }
  }

  // ------------------------------------------------------------------------------------------
  // What the registration helpers really read

  /** An element with one attribute. */
  function Bearing(attribute: string, value: string): Element {
    Element("", false, None, map[attribute := value])
  }

  /**
   * A single-value adapter passes its attribute's value on if and only if it was registered with a
   * non-empty attribute name: the documented default `val` is declared but never read.
   */
  lemma {:induction false} SingleValReadsIff(name: string, attribute: Option<string>, rule: Option<string>)
    ensures var ad := SingleValAdapter(name, attribute, rule);
      (exists el, inputs :: SetsText(ad, el, inputs)) <==> Truthy(attribute)
  {
    var ad := SingleValAdapter(name, attribute, rule);
    if Truthy(attribute) {
      var el := Bearing("data-val-" + ad.name + "-" + attribute.value, "x");
      assert Param(ad, el, attribute.value) == Some("x");
      assert SetsText(ad, el, []);
    } else {
      assert "val"[0] == 'v' && UNDEFINED[0] == 'u';
      assert ad.params == ["val"] && ad.kind.attribute != "val";
    }
  }

  /** The adapter sets its one rule to the text of an attribute. */
  predicate SetsText(ad: Adapter, el: Element, inputs: seq<Input>) {
    ad.kind.SingleVal? && Sets(ad, el, inputs)[0].1 != Text(None)
  }

  /** The value of the attribute that an adapter's declared parameter `i` names. */
  function Declared(ad: Adapter, el: Element, i: nat): Option<string>
    requires i < |ad.params|
  {
    Attribute(el, "data-val-" + ad.name + "-" + ad.params[i])
  }

  /** What is promised of a min-max adapter: its rule is for the bounds in the attributes it declares. */
  predicate ReadsTheDeclared(ad: Adapter, el: Element)
    requires ad.kind.MinMax? && |ad.params| == 2
  {
    Sets(ad, el, []) == BoundSets(ad.kind, Declared(ad, el, 0), Declared(ad, el, 1))
  }

  /** The name was left out, or is the one the library reads anyway. */
  predicate IsDefault(attribute: Option<string>, default: string) {
    Truthy(attribute) ==> attribute.value == default
  }

  /**
   * A min-max adapter reads the bounds it declares, on every element, if and only if neither attribute
   * name is changed: the function reads `min` and `max` whatever was declared.
   */
  lemma {:induction false} MinMaxReadsTheDeclaredIff(name: string, minRule: string, maxRule: Option<string>,
      bothRule: Option<string>, minAttribute: Option<string>, maxAttribute: Option<string>)
    ensures var ad := MinMaxAdapter(name, minRule, maxRule, bothRule, minAttribute, maxAttribute);
      (forall el :: ReadsTheDeclared(ad, el)) <==> IsDefault(minAttribute, "min") && IsDefault(maxAttribute, "max")
  {
    var ad := MinMaxAdapter(name, minRule, maxRule, bothRule, minAttribute, maxAttribute);
    if !IsDefault(minAttribute, "min") {
      ChangedMinIsMissed(ad);
    } else if !IsDefault(maxAttribute, "max") {
      ChangedMaxIsMissed(ad);
    }
  }

  /** Reading one attribute of an element that has one or two. */
  lemma AttributesOf(ad: Adapter, a: string, x: string, b: string, y: string, c: string)
    ensures var head := "data-val-" + ad.name + "-";
      Attribute(Element("", false, None, map[head + a := x, head + b := y]), head + c)
      == if c == b then Some(y) else if c == a then Some(x) else None
  {
    var head := "data-val-" + ad.name + "-";
    assert (head + a)[|head|..] == a && (head + b)[|head|..] == b && (head + c)[|head|..] == c;
  }

  /** An element with the attributes `a` and `b` of an adapter. */
  function Bounded(ad: Adapter, a: string, x: string, b: string, y: string): Element {
    var head := "data-val-" + ad.name + "-";
    Element("", false, None, map[head + a := x, head + b := y])
  }

  lemma {:induction false} ChangedMinIsMissed(ad: Adapter)
    requires ad.kind.MinMax? && |ad.params| == 2 && ad.params[0] != "min"
    ensures exists el :: !ReadsTheDeclared(ad, el)
  {
    var a, b := ad.params[0], ad.params[1];
    var swapped := a == "max" && b == "min";
    var key := if a == "max" && b != "max" && b != "min" then b else a;
    var other, value := if swapped then "min" else key, if swapped then "2" else "1";
    var el := Bounded(ad, key, "1", other, value);
    AttributesOf(ad, key, "1", other, value, a);
    AttributesOf(ad, key, "1", other, value, b);
    AttributesOf(ad, key, "1", other, value, "min");
    AttributesOf(ad, key, "1", other, value, "max");
    assert "min" != "max";
    assert !ReadsTheDeclared(ad, el);
  }

  lemma {:induction false} ChangedMaxIsMissed(ad: Adapter)
    requires ad.kind.MinMax? && |ad.params| == 2 && ad.params[0] == "min" && ad.params[1] != "max"
    ensures exists el :: !ReadsTheDeclared(ad, el)
  {
    var b := ad.params[1];
    var el := Bounded(ad, b, "1", b, "1");
    AttributesOf(ad, b, "1", b, "1", b);
    AttributesOf(ad, b, "1", b, "1", "min");
    AttributesOf(ad, b, "1", b, "1", "max");
    assert !ReadsTheDeclared(ad, el);
  }

  // ------------------------------------------------------------------------------------------
  // What the built-in bounds mean to the validator

  /** What a string converts to. */
  datatype Number = NaN | MinusInfinity | Finite(value: real) | PlusInfinity

  predicate AtMost(a: Number, b: Number) {
    match (a, b)
    case (NaN, _) => false
    case (_, NaN) => false
    case (MinusInfinity, _) => true
    case (_, PlusInfinity) => true
    case (Finite(x), Finite(y)) => x <= y
    case _ => false
  }

  predicate IsBoundMethod(rule: string) {
    || rule == "minlength" || rule == "maxlength" || rule == "rangelength"
    || rule == "min" || rule == "max" || rule == "range"
  }

  /**
   * The validator's check of one bound rule on a control's text. An empty text passes every method; a
   * rule without a method throws. The bounds of the length methods and of `range` have been converted to
   * numbers, those of `min` and `max` have not: they are compared with the text as strings.
   */
  predicate Passes(rule: string, value: Value, text: string, number: string -> Number) {
    IsBoundMethod(rule) &&
    (text == "" ||
     var length := Finite(Units(text) as real);
     match value
     case Text(Some(bound)) =>
       if rule == "minlength" then AtMost(number(bound), length)
       else if rule == "maxlength" then AtMost(length, number(bound))
       else if rule == "min" then TextAtMost(bound, text)
       else rule == "max" && TextAtMost(text, bound)
     case Both(min, max) =>
       if rule == "rangelength" then AtMost(number(min), length) && AtMost(length, number(max))
       else rule == "range" && AtMost(number(min), number(text)) && AtMost(number(text), number(max))
     case _ => false)
  }

  predicate PassesAll(sets: seq<(string, Value)>, text: string, number: string -> Number) {
    forall i :: 0 <= i < |sets| ==> Passes(sets[i].0, sets[i].1, text, number)
  }

  /** The text is empty or its number - for the length adapters its length - is within the stated bounds. */
  predicate WithinBounds(ad: Adapter, el: Element, text: string, number: string -> Number) {
    var measure := if ad.name == "range" then number(text) else Finite(Units(text) as real);
    text == "" ||
    (&& (Truthy(Param(ad, el, "min")) ==> AtMost(number(Param(ad, el, "min").value), measure))
     && (Truthy(Param(ad, el, "max")) ==> AtMost(measure, number(Param(ad, el, "max").value))))
  }

  /** `minlength` with a maximum, or `maxlength` with both bounds: a rule that was given no name. */
  predicate UsesUnnamedRule(ad: Adapter, el: Element) {
    && Truthy(Param(ad, el, "max"))
    && (ad.name == "minlength" || (ad.name == "maxlength" && Truthy(Param(ad, el, "min"))))
  }

  /** `range` with one bound alone: a bound that stays a string. */
  predicate ComparesText(ad: Adapter, el: Element) {
    ad.name == "range" && (Truthy(Param(ad, el, "min")) <==> !Truthy(Param(ad, el, "max")))
  }

  /**
   * What the rules of the built-in bound adapters accept: nothing if a rule was left unnamed; for a
   * single bound of `range` the texts on the right side of it in string order; and otherwise exactly the
   * texts within the stated bounds.
   */
  lemma {:induction false} BoundRulesAccept(ad: Adapter, el: Element, inputs: seq<Input>, text: string,
                                            number: string -> Number)
    requires ad in MINMAX_ADAPTERS
    ensures PassesAll(Sets(ad, el, inputs), text, number) <==>
            if UsesUnnamedRule(ad, el) then false
            else if ComparesText(ad, el) then
              || text == ""
              || (if Truthy(Param(ad, el, "min")) then TextAtMost(Param(ad, el, "min").value, text)
                  else TextAtMost(text, Param(ad, el, "max").value))
            else WithinBounds(ad, el, text, number)
  {
    BoundAdaptersByName(ad);
    AcceptedByName(ad, el, inputs, text, number);
  }

  lemma {:induction false} AcceptedByName(ad: Adapter, el: Element, inputs: seq<Input>, text: string,
                                          number: string -> Number)
    requires IsBoundAdapter(ad) && !IsBoundMethod(UNDEFINED)
    ensures PassesAll(Sets(ad, el, inputs), text, number) <==>
            if UsesUnnamedRule(ad, el) then false
            else if ComparesText(ad, el) then
              || text == ""
              || (if Truthy(Param(ad, el, "min")) then TextAtMost(Param(ad, el, "min").value, text)
                  else TextAtMost(text, Param(ad, el, "max").value))
            else WithinBounds(ad, el, text, number)
  {
    var sets := Sets(ad, el, inputs);
    if sets != [] {
      assert PassesAll(sets, text, number) <==> Passes(sets[0].0, sets[0].1, text, number);
    }
  }

  /** With 5 as the only minimum of `range`, the text `10` is within the bound and rejected. */
  lemma {:induction false} TenIsBelowFive(el: Element, inputs: seq<Input>, number: string -> Number)
    requires Attribute(el, "data-val-range-min") == Some("5") && Attribute(el, "data-val-range-max") == None
    requires number("5") == Finite(5.0) && number("10") == Finite(10.0)
    ensures RANGE in MINMAX_ADAPTERS
    ensures WithinBounds(RANGE, el, "10", number) && !PassesAll(Sets(RANGE, el, inputs), "10", number)
  {
    assert MINMAX_ADAPTERS[1] == RANGE;
    assert "data-val-" + RANGE.name + "-" + "min" == "data-val-range-min";
    assert "data-val-" + RANGE.name + "-" + "max" == "data-val-range-max";
    assert Param(RANGE, el, "min") == Some("5") && Param(RANGE, el, "max") == None;
    assert Encode("5")[0] == 53 && Encode("10")[0] == 49 by {
      assert '5' as nat == 53 && '1' as nat == 49;
    }
    BoundRulesAccept(RANGE, el, inputs, "10", number);
  }

  const RANGE := MinMaxAdapter("range", "min", Some("max"), Some("range"), None, None)

  /** Apart from what is no number, all numbers are in order, the infinities at its ends. */
  lemma NumbersAreOrdered(a: Number, b: Number, c: Number)
    ensures a == NaN || b == NaN ==> !AtMost(a, b)
    ensures a != NaN && b != NaN ==> AtMost(a, b) || AtMost(b, a)
    ensures AtMost(a, b) && AtMost(b, a) ==> a == b
    ensures AtMost(a, b) && AtMost(b, c) ==> AtMost(a, c)
    ensures a != NaN ==> AtMost(MinusInfinity, a) && AtMost(a, PlusInfinity)
    ensures a.Finite? && b.Finite? ==> (AtMost(a, b) <==> a.value <= b.value)
  {
  }

  /** Conversion ignores a tab at either end, takes no text with a control character below tab, and knows these two. */
  ghost predicate ConvertsNumbers(number: string -> Number) {
    && (forall t :: number("\t" + t) == number(t) == number(t + "\t"))
    && (forall t, i :: 0 <= i < |t| && t[i] < '\t' ==> number(t) == NaN)
    && number("") == Finite(0.0) && number("-1") == Finite(-1.0)
  }

  /**
   * The rules of a built-in bound adapter mean the bounds, for every text, if and only if the bounds call
   * for no unnamed rule and are not a single bound of `range`.
   */
  lemma {:induction false} BoundRulesMeanTheBoundsIff(ad: Adapter, el: Element, inputs: seq<Input>, number: string -> Number)
    requires ad in MINMAX_ADAPTERS && ConvertsNumbers(number)
    ensures (forall text :: PassesAll(Sets(ad, el, inputs), text, number) <==> WithinBounds(ad, el, text, number))
            <==> !UsesUnnamedRule(ad, el) && !ComparesText(ad, el)
  {
    forall text
      ensures !UsesUnnamedRule(ad, el) && !ComparesText(ad, el) ==>
                (PassesAll(Sets(ad, el, inputs), text, number) <==> WithinBounds(ad, el, text, number))
    {
      BoundRulesAccept(ad, el, inputs, text, number);
    }
    if UsesUnnamedRule(ad, el) {
      BoundRulesAccept(ad, el, inputs, "", number);
    } else if ComparesText(ad, el) {
      if Truthy(Param(ad, el, "min")) {
        var text := MisjudgedByMin(Param(ad, el, "min").value, number);
        BoundRulesAccept(ad, el, inputs, text, number);
      } else {
        var text := MisjudgedByMax(Param(ad, el, "max").value, number);
        BoundRulesAccept(ad, el, inputs, text, number);
      }
    }
  }

  /** A text that string order puts on the wrong side of a minimum. */
  lemma {:induction false} MisjudgedByMin(bound: string, number: string -> Number) returns (text: string)
    requires bound != "" && ConvertsNumbers(number)
    ensures text != "" && (TextAtMost(bound, text) <==> !AtMost(number(bound), number(text)))
  {
    if number(bound) == NaN {
      text := bound;
      TextIsAtMostItself(bound);
    } else if AllTabs(bound) {
      text := "-1";
      TabsAreZero(bound, number);
      TabUnit();
      EncodeOfConcat("\t", bound[1..]);
      assert bound == "\t" + bound[1..];
      EncodeOfConcat("-", "1");
      assert "-1" == "-" + "1" && '-' as nat == 45;
    } else {
      text := "\t" + bound;
      assert forall i :: 0 <= i < |bound| ==> bound[i] >= '\t';
      TabComesFirst(bound);
    }
  }

  lemma {:induction false} MisjudgedByMax(bound: string, number: string -> Number) returns (text: string)
    requires bound != "" && ConvertsNumbers(number)
    ensures text != "" && (TextAtMost(text, bound) <==> !AtMost(number(text), number(bound)))
  {
    if number(bound) == NaN {
      text := bound;
      TextIsAtMostItself(bound);
    } else {
      text := bound + "\t";
      LongerComesLater(bound);
    }
  }

  predicate AllTabs(s: string) {
    s == "" || (s[0] == '\t' && AllTabs(s[1..]))
  }

  lemma {:induction false} TextIsAtMostItself(s: string)
    ensures TextAtMost(s, s)
  {
    UnitsAreAtMostThemselves(Encode(s));
  }

  lemma {:induction false} UnitsAreAtMostThemselves(units: seq<nat>)
    ensures UnitsAtMost(units, units)
  {
    if units != [] {
      UnitsAreAtMostThemselves(units[1..]);
    }
  }

  lemma {:induction false} TabsAreZero(s: string, number: string -> Number)
    requires AllTabs(s) && ConvertsNumbers(number)
    ensures number(s) == Finite(0.0)
  {
    if s != "" {
      TabsAreZero(s[1..], number);
      assert s == "\t" + s[1..];
    }
  }

  lemma TabUnit()
    ensures Encode("\t") == [9]
  {
    assert "\t"[1..] == "";
    assert '\t' as nat == 9;
  }

  lemma {:induction false} TabComesFirst(s: string)
    requires !AllTabs(s) && forall i :: 0 <= i < |s| ==> s[i] >= '\t'
    ensures !TextAtMost(s, "\t" + s)
  {
    TabUnit();
    EncodeOfConcat("\t", s);
    var units := Encode(s);
    assert ([9] + units)[1..] == units;
    if s[0] == '\t' {
      TabComesFirst(s[1..]);
      EncodeOfConcat("\t", s[1..]);
      assert s == "\t" + s[1..];
      assert units == [9] + Encode(s[1..]) && units[1..] == Encode(s[1..]);
    } else {
      assert s[0] as nat > 9;
      assert units[0] > 9;
    }
  }

  lemma {:induction false} LongerComesLater(s: string)
    ensures !TextAtMost(s + "\t", s)
  {
    TabUnit();
    EncodeOfConcat(s, "\t");
    LongerUnitsComeLater(Encode(s), 9);
  }

  lemma {:induction false} LongerUnitsComeLater(units: seq<nat>, u: nat)
    ensures !UnitsAtMost(units + [u], units)
  {
    if units != [] {
      LongerUnitsComeLater(units[1..], u);
      assert (units + [u])[1..] == units[1..] + [u];
    }
  }

  /** The rule names of the four bound adapters. */
  predicate IsBoundAdapter(ad: Adapter) {
    && ad.kind.MinMax? && "min" in ad.params && "max" in ad.params
    && ad.kind.minRule == (if ad.name == "range" then "min" else "minlength")
    && (ad.name == "minlength" ==> ad.kind.maxRule == ad.kind.bothRule == UNDEFINED)
    && (ad.name == "maxlength" ==> ad.kind.maxRule == "maxlength" && ad.kind.bothRule == UNDEFINED)
    && (ad.name == "length" ==> ad.kind.maxRule == "maxlength" && ad.kind.bothRule == "rangelength")
    && (ad.name == "range" ==> ad.kind.maxRule == "max" && ad.kind.bothRule == "range")
    && (ad.name == "minlength" || ad.name == "maxlength" || ad.name == "length" || ad.name == "range")
  }

  lemma {:induction false} BoundAdaptersByName(ad: Adapter)
    requires ad in MINMAX_ADAPTERS
    ensures IsBoundAdapter(ad) && !IsBoundMethod(UNDEFINED)
  {
    assert UNDEFINED[0] == 'u';
    assert "length"[0] == 'l' && "range"[0] == 'r' && "minlength"[1] == 'i' && "maxlength"[1] == 'a';
  }

  /** The `password` adapter sets each of its three rules exactly when its attribute is there and not empty. */
  lemma {:induction false} PasswordRulesAreTheGiven(el: Element, inputs: seq<Input>, rule: string)
    requires Message(PASSWORD, el).Some?
    ensures var rules := RulesAfter(AdapterWrites(PASSWORD, el, inputs));
      rule in rules <==>
        || (rule == "minlength" && Truthy(Param(PASSWORD, el, "min")))
        || (rule == "nonalphamin" && Truthy(Param(PASSWORD, el, "nonalphamin")))
        || (rule == "regex" && Truthy(Param(PASSWORD, el, "regex")))
  {
    SetRulesAreThere(PASSWORD, el, inputs, rule);
    var a, b, c := SetIfTruthy("minlength", Param(PASSWORD, el, "min")),
                   SetIfTruthy("nonalphamin", Param(PASSWORD, el, "nonalphamin")),
                   SetIfTruthy("regex", Param(PASSWORD, el, "regex"));
    InAnyOfThree(a, b, c, rule);
    assert Sets(PASSWORD, el, inputs) == a + b + c;
  }

  /** Of three short lists, the joined one has a rule exactly when one of them starts with it. */
  lemma {:induction false} InAnyOfThree(a: seq<(string, Value)>, b: seq<(string, Value)>, c: seq<(string, Value)>, rule: string)
    requires |a| <= 1 && |b| <= 1 && |c| <= 1
    ensures (exists x :: x in a + b + c && x.0 == rule) <==>
            (a != [] && a[0].0 == rule) || (b != [] && b[0].0 == rule) || (c != [] && c[0].0 == rule)
  {
    assert forall x :: x in a + b + c <==> x in a || x in b || x in c;
    assert a != [] ==> a[0] in a + b + c;
    assert b != [] ==> b[0] in a + b + c;
    assert c != [] ==> c[0] in a + b + c;
  }

  /** An adapter's rules are there afterwards, and no others. */
  lemma {:induction false} SetRulesAreThere(ad: Adapter, el: Element, inputs: seq<Input>, rule: string)
    requires Message(ad, el).Some? && !Throws(ad, el)
    ensures rule in RulesAfter(AdapterWrites(ad, el, inputs)) <==> exists x :: x in Sets(ad, el, inputs) && x.0 == rule
  {
    var writes, sets := AdapterWrites(ad, el, inputs), Sets(ad, el, inputs);
    RuleIsThereIff(writes, rule);
    if IsSet(writes, rule) {
      var i :| 0 <= i < |writes| && writes[i].rule == rule;
      assert sets[i] in sets;
    }
    if x :| x in sets && x.0 == rule {
      var i :| 0 <= i < |sets| && sets[i] == x;
      assert writes[i].rule == rule;
    }
  }

  const PASSWORD := Adapter("password", ["min", "nonalphamin", "regex"], Password)
}
