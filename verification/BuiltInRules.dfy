/** What the built-in adapters leave on an element, rule by rule, in terms of the element's attributes. */
module BuiltInRules {
  import opened Common
  import opened Selectors
  import opened FieldLists
  import opened ModelNames
  import opened Adapters
  import opened Unobtrusive

  // ------------------------------------------------------------------------------------------
  // The effect of a list of adapters on one rule

  function Of<T>(m: map<string, T>, key: string): Option<T> {
    if key in m then Some(m[key]) else None
  }

  /** `later` if it is there, otherwise `earlier`. */
  function Later<T>(earlier: Option<T>, later: Option<T>): Option<T> {
    if later.Some? then later else earlier
  }

  /** What one adapter makes of a rule, and of its message. */
  function Effect(ad: Adapter, el: Element, inputs: seq<Input>, rule: string): Option<Value> {
    Of(RulesAfter(AdapterWrites(ad, el, inputs)), rule)
  }

  function Said(ad: Adapter, el: Element, inputs: seq<Input>, rule: string): Option<string> {
    Of(MessagesAfter(AdapterWrites(ad, el, inputs)), rule)
  }

  function EffectOf(adapters: seq<Adapter>, el: Element, inputs: seq<Input>, rule: string): Option<Value> {
    if adapters == [] then None
    else Later(EffectOf(Front(adapters), el, inputs, rule), Effect(Last(adapters), el, inputs, rule))
  }

  function SaidBy(adapters: seq<Adapter>, el: Element, inputs: seq<Input>, rule: string): Option<string> {
    if adapters == [] then None
    else Later(SaidBy(Front(adapters), el, inputs, rule), Said(Last(adapters), el, inputs, rule))
  }

  lemma {:induction false} LookUpOfConcat(a: seq<Write>, b: seq<Write>, rule: string)
    ensures Of(RulesAfter(a + b), rule) == Later(Of(RulesAfter(a), rule), Of(RulesAfter(b), rule))
    ensures Of(MessagesAfter(a + b), rule) == Later(Of(MessagesAfter(a), rule), Of(MessagesAfter(b), rule))
  {
    if b == [] {
      assert a + b == a;
    } else {
      assert Front(a + b) == a + Front(b) && Last(a + b) == Last(b);
      LookUpOfConcat(a, Front(b), rule);
    }
  }

  /** Without a throw the last adapter that sets a rule decides it, and its message likewise. */
  lemma {:induction false} LaterAdaptersDecide(adapters: seq<Adapter>, el: Element, inputs: seq<Input>, rule: string)
    requires !ElementThrows(adapters, el)
    ensures Of(RulesAfter(ElementWrites(adapters, el, inputs)), rule) == EffectOf(adapters, el, inputs, rule)
    ensures Of(MessagesAfter(ElementWrites(adapters, el, inputs)), rule) == SaidBy(adapters, el, inputs, rule)
  {
    if adapters != [] {
      var front := Front(adapters);
      assert forall i | 0 <= i < |front| :: front[i] == adapters[i];
      LaterAdaptersDecide(front, el, inputs, rule);
      LookUpOfConcat(ElementWrites(front, el, inputs), AdapterWrites(Last(adapters), el, inputs), rule);
    }
  }

  lemma {:induction false} EffectOfConcat(a: seq<Adapter>, b: seq<Adapter>, el: Element, inputs: seq<Input>,
                                          rule: string)
    ensures EffectOf(a + b, el, inputs, rule) == Later(EffectOf(a, el, inputs, rule), EffectOf(b, el, inputs, rule))
    ensures SaidBy(a + b, el, inputs, rule) == Later(SaidBy(a, el, inputs, rule), SaidBy(b, el, inputs, rule))
  {
    if b == [] {
      assert a + b == a;
    } else {
      assert Front(a + b) == a + Front(b) && Last(a + b) == Last(b);
      EffectOfConcat(a, Front(b), el, inputs, rule);
    }
  }

  // ------------------------------------------------------------------------------------------
  // The effect of one adapter

  /** The value that a list of rule settings leaves on a rule. */
  function SetTo(sets: seq<(string, Value)>, rule: string): Option<Value> {
    if sets == [] then None else if Last(sets).0 == rule then Some(Last(sets).1) else SetTo(Front(sets), rule)
  }

  lemma {:induction false} WithMessageLookUp(sets: seq<(string, Value)>, message: string, rule: string)
    ensures Of(RulesAfter(WithMessage(sets, message)), rule) == SetTo(sets, rule)
    ensures Of(MessagesAfter(WithMessage(sets, message)), rule)
            == if SetTo(sets, rule).Some? && message != "" then Some(message) else None
  {
    if sets != [] {
      WithMessageLookUp(Front(sets), message, rule);
      assert Front(WithMessage(sets, message)) == WithMessage(Front(sets), message);
    }
  }

  lemma {:induction false} EffectIs(ad: Adapter, el: Element, inputs: seq<Input>, rule: string)
    ensures Effect(ad, el, inputs, rule) ==
            if "data-val-" + ad.name in el.attributes && !Throws(ad, el)
            then SetTo(Sets(ad, el, inputs), rule) else None
    ensures Said(ad, el, inputs, rule) ==
            if Effect(ad, el, inputs, rule).Some? && el.attributes["data-val-" + ad.name] != ""
            then Some(el.attributes["data-val-" + ad.name]) else None
  {
    if Message(ad, el).Some? && !Throws(ad, el) {
      WithMessageLookUp(Sets(ad, el, inputs), Message(ad, el).value, rule);
    }
  }

  lemma SetToOne(rule: string, value: Value, name: string)
    ensures SetTo([(rule, value)], name) == if rule == name then Some(value) else None
  {
    assert Front([(rule, value)]) == [];
  }

  // ------------------------------------------------------------------------------------------
  // The built-in table

  /** The lower bound that an adapter's attributes state without an upper one, and so on. */
  function LowerOnly(el: Element, name: string): Option<Value> {
    var min, max := Attribute(el, "data-val-" + name + "-min"), Attribute(el, "data-val-" + name + "-max");
    if "data-val-" + name in el.attributes && Truthy(min) && !Truthy(max) then Some(Text(min)) else None
  }

  function UpperOnly(el: Element, name: string): Option<Value> {
    var min, max := Attribute(el, "data-val-" + name + "-min"), Attribute(el, "data-val-" + name + "-max");
    if "data-val-" + name in el.attributes && !Truthy(min) && Truthy(max) then Some(Text(max)) else None
  }

  function BothBounds(el: Element, name: string): Option<Value> {
    var min, max := Attribute(el, "data-val-" + name + "-min"), Attribute(el, "data-val-" + name + "-max");
    if "data-val-" + name in el.attributes && Truthy(min) && Truthy(max) then Some(Both(min.value, max.value)) else None
  }

  /** The text of an attribute if another is there. */
  function TextIf(el: Element, present: string, attribute: string): Option<Value> {
    if present in el.attributes then Some(Text(Attribute(el, attribute))) else None
  }

  /** The same if the attribute is there and not empty. */
  function TextIfGiven(el: Element, present: string, attribute: string): Option<Value> {
    if present in el.attributes && Truthy(Attribute(el, attribute)) then Some(Text(Attribute(el, attribute))) else None
  }

  /** `h` says whether the validator has an `extension` method. */
  function SingleValRule(h: bool, el: Element, rule: string): Option<Value> {
    if rule == "regex" then TextIf(el, "data-val-regex", "data-val-regex-pattern")
    else if rule == "extension" then
      if h then TextIf(el, "data-val-extension", "data-val-extension-extension") else None
    else if rule == "accept" then
      if h then TextIf(el, "data-val-accept", "data-val-accept-mimtype")
      else TextIf(el, "data-val-extension", "data-val-extension-extension")
    else None
  }

  function BoolRule(el: Element, rule: string): Option<Value> {
    if && (|| rule == "creditcard" || rule == "date" || rule == "digits"
           || rule == "email" || rule == "number" || rule == "url")
       && "data-val-" + rule in el.attributes
    then Some(True) else None
  }

  function MinMaxRule(el: Element, rule: string): Option<Value> {
    if rule == "minlength" then
      Later(Later(LowerOnly(el, "length"), LowerOnly(el, "minlength")), LowerOnly(el, "maxlength"))
    else if rule == "maxlength" then Later(UpperOnly(el, "length"), UpperOnly(el, "maxlength"))
    else if rule == "rangelength" then BothBounds(el, "length")
    else if rule == "min" then LowerOnly(el, "range")
    else if rule == "max" then UpperOnly(el, "range")
    else if rule == "range" then BothBounds(el, "range")
    else if rule == "undefined" then
      Later(Later(UpperOnly(el, "minlength"), BothBounds(el, "minlength")), BothBounds(el, "maxlength"))
    else None
  }

  function CustomRule(el: Element, inputs: seq<Input>, rule: string): Option<Value> {
    if rule == "equalTo" then
      if "data-val-equalto" in el.attributes && "data-val-equalto-other" in el.attributes then
        Some(Target(FirstMatch(inputs, NameSelector(
          AppendModelPrefix(el.attributes["data-val-equalto-other"], GetModelPrefix(el.name))))))
      else None
    else if rule == "required" then
      if "data-val-required" in el.attributes && !el.isCheckbox then Some(True) else None
    else if rule == "remote" then
      if "data-val-remote" in el.attributes then
        var verb, listed := Attribute(el, "data-val-remote-type"), Attribute(el, "data-val-remote-additionalfields");
        var names := SplitAndTrim(if Truthy(listed) then listed.value else el.name);
        Some(Remote(Attribute(el, "data-val-remote-url"), if Truthy(verb) then verb.value else "GET",
                    set i | 0 <= i < |names| :: AppendModelPrefix(names[i], GetModelPrefix(el.name))))
      else None
    else if rule == "minlength" then TextIfGiven(el, "data-val-password", "data-val-password-min")
    else if rule == "nonalphamin" then TextIfGiven(el, "data-val-password", "data-val-password-nonalphamin")
    else if rule == "regex" then TextIfGiven(el, "data-val-password", "data-val-password-regex")
    else if rule == "extension" then TextIf(el, "data-val-fileextensions", "data-val-fileextensions-extensions")
    else None
  }

  /** Names of equal length differ in their first or second character. */
  lemma RuleNamesDiffer()
    ensures "min" != "max" && "min" != "url" && "max" != "url" && "range" != "email" && "regex" != "email"
    ensures "range" != "regex" && "digits" != "number" && "digits" != "accept" && "digits" != "remote"
    ensures "number" != "accept" && "number" != "remote" && "accept" != "remote"
    ensures "minlength" != "maxlength" && "minlength" != "extension" && "minlength" != "undefined"
    ensures "maxlength" != "extension" && "maxlength" != "undefined" && "extension" != "undefined"
    ensures "rangelength" != "nonalphamin"
    ensures "minlength" != "__dummy__" && "maxlength" != "__dummy__"
    ensures "extension" != "__dummy__" && "undefined" != "__dummy__"
  {
    assert "min"[1] == 'i' && "max"[1] == 'a' && "url"[0] == 'u';
    assert "range"[1] == 'a' && "regex"[1] == 'e' && "email"[0] == 'e';
    assert "digits"[0] == 'd' && "number"[0] == 'n' && "accept"[0] == 'a' && "remote"[0] == 'r';
    assert "minlength"[1] == 'i' && "maxlength"[1] == 'a' && "extension"[0] == 'e' && "undefined"[0] == 'u';
    assert "rangelength"[0] == 'r' && "nonalphamin"[0] == 'n' && "__dummy__"[0] == '_';
  }

  lemma {:induction false} EffectOfOne(ad: Adapter, el: Element, inputs: seq<Input>, rule: string)
    ensures EffectOf([ad], el, inputs, rule) == Effect(ad, el, inputs, rule)
  {
    assert Front([ad]) == [] && Last([ad]) == ad;
  }

  lemma {:induction false} EffectOfMore(front: seq<Adapter>, ad: Adapter, el: Element, inputs: seq<Input>, rule: string)
    ensures EffectOf(front + [ad], el, inputs, rule) ==
            Later(EffectOf(front, el, inputs, rule), Effect(ad, el, inputs, rule))
  {
    FrontOfAppend(front, ad);
  }

  lemma {:induction false} SingleValEffect(ad: Adapter, el: Element, inputs: seq<Input>, rule: string)
    requires ad.kind.SingleVal? && ad.kind.attribute in ad.params
    ensures Effect(ad, el, inputs, rule) ==
            if rule == ad.kind.rule
            then TextIf(el, "data-val-" + ad.name, "data-val-" + ad.name + "-" + ad.kind.attribute) else None
  {
    EffectIs(ad, el, inputs, rule);
    SetToOne(ad.kind.rule, Text(Param(ad, el, ad.kind.attribute)), rule);
  }

  lemma {:induction false} AcceptEffect(el: Element, inputs: seq<Input>, rule: string)
    ensures Effect(Adapter("accept", ["mimtype"], SingleVal("mimtype", "accept")), el, inputs, rule) ==
            if rule == "accept" then TextIf(el, "data-val-accept", "data-val-accept-mimtype") else None
  {
    SingleValEffect(Adapter("accept", ["mimtype"], SingleVal("mimtype", "accept")), el, inputs, rule);
    assert "data-val-" + "accept" == "data-val-accept"
           && "data-val-accept" + "-" + "mimtype" == "data-val-accept-mimtype";
  }

  lemma {:induction false} ExtensionEffect(target: string, el: Element, inputs: seq<Input>, rule: string)
    ensures Effect(Adapter("extension", ["extension"], SingleVal("extension", target)), el, inputs, rule) ==
            if rule == target then TextIf(el, "data-val-extension", "data-val-extension-extension") else None
  {
    SingleValEffect(Adapter("extension", ["extension"], SingleVal("extension", target)), el, inputs, rule);
    assert "data-val-" + "extension" == "data-val-extension"
           && "data-val-extension" + "-" + "extension" == "data-val-extension-extension";
  }

  lemma {:induction false} RegexEffect(el: Element, inputs: seq<Input>, rule: string)
    ensures Effect(Adapter("regex", ["pattern"], SingleVal("pattern", "regex")), el, inputs, rule) ==
            if rule == "regex" then TextIf(el, "data-val-regex", "data-val-regex-pattern") else None
  {
    SingleValEffect(Adapter("regex", ["pattern"], SingleVal("pattern", "regex")), el, inputs, rule);
    assert "data-val-" + "regex" == "data-val-regex" && "data-val-regex" + "-" + "pattern" == "data-val-regex-pattern";
  }

  lemma {:induction false} SingleValsEffect(h: bool, el: Element, inputs: seq<Input>, rule: string)
    ensures EffectOf(SingleVals(h), el, inputs, rule) == SingleValRule(h, el, rule)
  {
    if h {
      ThreeSingleVals(el, inputs, rule);
    } else {
      TwoSingleVals(el, inputs, rule);
    }
  }

  lemma {:induction false} ThreeSingleVals(el: Element, inputs: seq<Input>, rule: string)
    ensures EffectOf(SingleVals(true), el, inputs, rule) == SingleValRule(true, el, rule)
  {
    var ads := SingleVals(true);
    AcceptEffect(el, inputs, rule);
    ExtensionEffect("extension", el, inputs, rule);
    RegexEffect(el, inputs, rule);
    EffectOfOne(ads[0], el, inputs, rule);
    EffectOfMore([ads[0]], ads[1], el, inputs, rule);
    EffectOfMore([ads[0]] + [ads[1]], ads[2], el, inputs, rule);
    assert ads == [ads[0]] + [ads[1]] + [ads[2]];
  }

  lemma {:induction false} TwoSingleVals(el: Element, inputs: seq<Input>, rule: string)
    ensures EffectOf(SingleVals(false), el, inputs, rule) == SingleValRule(false, el, rule)
  {
    var ads := SingleVals(false);
    ExtensionEffect("accept", el, inputs, rule);
    RegexEffect(el, inputs, rule);
    EffectOfOne(ads[0], el, inputs, rule);
    EffectOfMore([ads[0]], ads[1], el, inputs, rule);
    assert ads == [ads[0]] + [ads[1]];
  }

  lemma {:induction false} BoolsEffect(names: seq<string>, el: Element, inputs: seq<Input>, rule: string)
    ensures EffectOf(Bools(names), el, inputs, rule) ==
            if rule in names && "data-val-" + rule in el.attributes then Some(True) else None
  {
    if names != [] {
      BoolsEffect(Front(names), el, inputs, rule);
      var ad := Adapter(Last(names), [], Bool(Last(names)));
      EffectOfMore(Bools(Front(names)), ad, el, inputs, rule);
      EffectIs(ad, el, inputs, rule);
      SetToOne(Last(names), True, rule);
      assert rule in names <==> rule in Front(names) || rule == Last(names);
    }
  }

  lemma {:induction false} MinMaxEffect(ad: Adapter, el: Element, inputs: seq<Input>, rule: string)
    requires ad.kind.MinMax? && ad.params == ["min", "max"]
    ensures Effect(ad, el, inputs, rule) ==
            Later(if rule == ad.kind.minRule then LowerOnly(el, ad.name) else None,
                  Later(if rule == ad.kind.maxRule then UpperOnly(el, ad.name) else None,
                        if rule == ad.kind.bothRule then BothBounds(el, ad.name) else None))
  {
    EffectIs(ad, el, inputs, rule);
    assert "data-val-" + ad.name + "-" + "min" == "data-val-" + ad.name + "-min";
    assert "data-val-" + ad.name + "-" + "max" == "data-val-" + ad.name + "-max";
    assert "min" in ad.params && "max" in ad.params by {
      assert ad.params[0] == "min" && ad.params[1] == "max";
    }
    var sets := Sets(ad, el, inputs);
    if sets != [] {
      SetToOne(sets[0].0, sets[0].1, rule);
      assert sets == [(sets[0].0, sets[0].1)];
    }
  }

  lemma {:induction false} MinMaxesEffect(el: Element, inputs: seq<Input>, rule: string)
    ensures EffectOf(MINMAX_ADAPTERS, el, inputs, rule) == MinMaxRule(el, rule)
  {
    RuleNamesDiffer();
    var ads := MINMAX_ADAPTERS;
    assert ads == [ads[0]] + [ads[1]] + [ads[2]] + [ads[3]];
    EffectOfOne(ads[0], el, inputs, rule);
    EffectOfMore([ads[0]], ads[1], el, inputs, rule);
    EffectOfMore([ads[0]] + [ads[1]], ads[2], el, inputs, rule);
    EffectOfMore([ads[0]] + [ads[1]] + [ads[2]], ads[3], el, inputs, rule);
    MinMaxEffect(ads[0], el, inputs, rule);
    MinMaxEffect(ads[1], el, inputs, rule);
    MinMaxEffect(ads[2], el, inputs, rule);
    MinMaxEffect(ads[3], el, inputs, rule);
  }

  lemma {:induction false} EqualToEffect(el: Element, inputs: seq<Input>, rule: string)
    ensures Effect(CUSTOM_ADAPTERS[0], el, inputs, rule) ==
            if rule == "equalTo" then CustomRule(el, inputs, "equalTo") else None
  {
    var ad := CUSTOM_ADAPTERS[0];
    assert "data-val-" + "equalto" == "data-val-equalto"
           && "data-val-equalto" + "-" + "other" == "data-val-equalto-other";
    assert ad.params[0] == "other";
    EffectIs(ad, el, inputs, rule);
    if !Throws(ad, el) {
      SetToOne("equalTo", Sets(ad, el, inputs)[0].1, rule);
    }
  }

  lemma {:induction false} RequiredEffect(el: Element, inputs: seq<Input>, rule: string)
    ensures Effect(CUSTOM_ADAPTERS[1], el, inputs, rule) ==
            if rule == "required" && "data-val-required" in el.attributes && !el.isCheckbox then Some(True) else None
  {
    assert "data-val-" + "required" == "data-val-required";
    EffectIs(CUSTOM_ADAPTERS[1], el, inputs, rule);
    SetToOne("required", True, rule);
  }

  lemma {:induction false} RemoteEffect(el: Element, inputs: seq<Input>, rule: string)
    ensures Effect(CUSTOM_ADAPTERS[2], el, inputs, rule) ==
            if rule == "remote" then CustomRule(el, inputs, "remote") else None
  {
    var ad := CUSTOM_ADAPTERS[2];
    assert "equalTo" != "remote" && "required" != "remote";
    assert "data-val-" + "remote" == "data-val-remote" && "data-val-remote" + "-" + "url" == "data-val-remote-url";
    assert "data-val-remote" + "-" + "type" == "data-val-remote-type";
    assert "data-val-remote" + "-" + "additionalfields" == "data-val-remote-additionalfields";
    assert ad.params[0] == "url" && ad.params[1] == "type" && ad.params[2] == "additionalfields";
    EffectIs(ad, el, inputs, rule);
    SetToOne("remote", Sets(ad, el, inputs)[0].1, rule);
  }

  lemma PasswordParams(el: Element)
    ensures var ad := CUSTOM_ADAPTERS[3];
      && "data-val-" + ad.name == "data-val-password"
      && Param(ad, el, "min") == Attribute(el, "data-val-password-min")
      && Param(ad, el, "nonalphamin") == Attribute(el, "data-val-password-nonalphamin")
      && Param(ad, el, "regex") == Attribute(el, "data-val-password-regex")
  {
    var ad := CUSTOM_ADAPTERS[3];
    assert "data-val-" + "password" == "data-val-password"
           && "data-val-password" + "-" + "min" == "data-val-password-min";
    assert "data-val-password" + "-" + "nonalphamin" == "data-val-password-nonalphamin";
    assert "data-val-password" + "-" + "regex" == "data-val-password-regex";
    assert ad.params[0] == "min" && ad.params[1] == "nonalphamin" && ad.params[2] == "regex";
  }

  lemma SetToGiven(rule: string, param: Option<string>, name: string)
    ensures SetTo(SetIfTruthy(rule, param), name) == if Truthy(param) && rule == name then Some(Text(param)) else None
  {
    SetToOne(rule, Text(param), name);
  }

  lemma {:induction false} PasswordSets(min: Option<string>, nonalphamin: Option<string>, regex: Option<string>,
                                        rule: string)
    ensures SetTo(SetIfTruthy("minlength", min) + SetIfTruthy("nonalphamin", nonalphamin)
                  + SetIfTruthy("regex", regex), rule)
            == if rule == "minlength" then (if Truthy(min) then Some(Text(min)) else None)
               else if rule == "nonalphamin" then (if Truthy(nonalphamin) then Some(Text(nonalphamin)) else None)
               else if rule == "regex" then (if Truthy(regex) then Some(Text(regex)) else None)
               else None
  {
    var a, b, c := SetIfTruthy("minlength", min), SetIfTruthy("nonalphamin", nonalphamin), SetIfTruthy("regex", regex);
    SetToOfConcat(a, b, rule);
    SetToOfConcat(a + b, c, rule);
    SetToGiven("minlength", min, rule);
    SetToGiven("nonalphamin", nonalphamin, rule);
    SetToGiven("regex", regex, rule);
  }

  lemma {:induction false} PasswordEffect(el: Element, inputs: seq<Input>, rule: string)
    ensures Effect(CUSTOM_ADAPTERS[3], el, inputs, rule) ==
            if rule == "minlength" then TextIfGiven(el, "data-val-password", "data-val-password-min")
            else if rule == "nonalphamin" then TextIfGiven(el, "data-val-password", "data-val-password-nonalphamin")
            else if rule == "regex" then TextIfGiven(el, "data-val-password", "data-val-password-regex")
            else None
  {
    var ad := CUSTOM_ADAPTERS[3];
    PasswordParams(el);
    EffectIs(ad, el, inputs, rule);
    PasswordSets(Param(ad, el, "min"), Param(ad, el, "nonalphamin"), Param(ad, el, "regex"), rule);
  }

  lemma {:induction false} SetToOfConcat(a: seq<(string, Value)>, b: seq<(string, Value)>, rule: string)
    ensures SetTo(a + b, rule) == Later(SetTo(a, rule), SetTo(b, rule))
  {
    if b == [] {
      assert a + b == a;
    } else {
      assert Front(a + b) == a + Front(b) && Last(a + b) == Last(b);
      SetToOfConcat(a, Front(b), rule);
    }
  }

  lemma {:induction false} FileExtensionsEffect(el: Element, inputs: seq<Input>, rule: string)
    ensures Effect(CUSTOM_ADAPTERS[4], el, inputs, rule) ==
            if rule == "extension"
            then TextIf(el, "data-val-fileextensions", "data-val-fileextensions-extensions") else None
  {
    var ad := CUSTOM_ADAPTERS[4];
    assert "data-val-" + "fileextensions" == "data-val-fileextensions";
    assert "data-val-fileextensions" + "-" + "extensions" == "data-val-fileextensions-extensions";
    assert ad.params[0] == "extensions";
    EffectIs(ad, el, inputs, rule);
    SetToOne("extension", Text(Param(ad, el, "extensions")), rule);
  }

  lemma {:induction false} CustomsEffect(el: Element, inputs: seq<Input>, rule: string)
    ensures EffectOf(CUSTOM_ADAPTERS, el, inputs, rule) == CustomRule(el, inputs, rule)
  {
    RuleNamesDiffer();
    var ads := CUSTOM_ADAPTERS;
    assert ads == [ads[0]] + [ads[1]] + [ads[2]] + [ads[3]] + [ads[4]];
    EffectOfOne(ads[0], el, inputs, rule);
    EffectOfMore([ads[0]], ads[1], el, inputs, rule);
    EffectOfMore([ads[0]] + [ads[1]], ads[2], el, inputs, rule);
    EffectOfMore([ads[0]] + [ads[1]] + [ads[2]], ads[3], el, inputs, rule);
    EffectOfMore([ads[0]] + [ads[1]] + [ads[2]] + [ads[3]], ads[4], el, inputs, rule);
    EqualToEffect(el, inputs, rule);
    RequiredEffect(el, inputs, rule);
    RemoteEffect(el, inputs, rule);
    PasswordEffect(el, inputs, rule);
    FileExtensionsEffect(el, inputs, rule);
  }

  /** The rule that the attributes of an element ask for. */
  function BuiltInRule(h: bool, page: Page, el: Element, rule: string): Option<Value> {
    if rule == "__dummy__" then Some(True)
    else
      Later(HelperRule(h, el, rule),
            CustomRule(el, if el.form.Some? && el.form.value in page then page[el.form.value] else [], rule))
  }

  /** The one way to make the built-in adapters throw. */
  predicate LacksOther(el: Element) {
    "data-val-equalto" in el.attributes && "data-val-equalto-other" !in el.attributes
  }

  lemma {:induction false} ThrowsOfConcat(a: seq<Adapter>, b: seq<Adapter>, el: Element)
    ensures ElementThrows(a + b, el) <==> ElementThrows(a, el) || ElementThrows(b, el)
  {
    assert forall i | 0 <= i < |a| :: (a + b)[i] == a[i];
    assert forall i | 0 <= i < |b| :: (a + b)[|a| + i] == b[i];
  }

  lemma {:induction false} BoolsDoNotThrow(names: seq<string>, el: Element)
    ensures !ElementThrows(Bools(names), el)
  {
    if names != [] {
      BoolsDoNotThrow(Front(names), el);
      ThrowsOfConcat(Bools(Front(names)), [Adapter(Last(names), [], Bool(Last(names)))], el);
    }
  }

  lemma {:induction false} BuiltInsThrowIff(h: bool, el: Element)
    ensures ElementThrows(BuiltIns(h), el) <==> LacksOther(el)
  {
    var equalTo := CUSTOM_ADAPTERS[0];
    assert "data-val-" + "equalto" == "data-val-equalto"
           && "data-val-equalto" + "-" + "other" == "data-val-equalto-other";
    assert equalTo.params[0] == "other";
    HelpersDoNotThrow(h, el);
    ThrowsOfConcat(Helpers(h), CUSTOM_ADAPTERS, el);
    assert AdapterThrows(equalTo, el) <==> LacksOther(el);
  }

  /** The adapters before `equalto`. */
  function Helpers(h: bool): seq<Adapter> {
    SingleVals(h) + Bools(BOOL_NAMES) + MINMAX_ADAPTERS
  }

  function HelperRule(h: bool, el: Element, rule: string): Option<Value> {
    Later(Later(SingleValRule(h, el, rule), BoolRule(el, rule)), MinMaxRule(el, rule))
  }

  lemma {:induction false} HelpersEffect(h: bool, el: Element, inputs: seq<Input>, rule: string)
    ensures EffectOf(Helpers(h), el, inputs, rule) == HelperRule(h, el, rule)
  {
    EffectOfConcat(SingleVals(h) + Bools(BOOL_NAMES), MINMAX_ADAPTERS, el, inputs, rule);
    EffectOfConcat(SingleVals(h), Bools(BOOL_NAMES), el, inputs, rule);
    SingleValsEffect(h, el, inputs, rule);
    BuiltInBoolsEffect(el, inputs, rule);
    MinMaxesEffect(el, inputs, rule);
  }

  lemma {:induction false} HelpersDoNotThrow(h: bool, el: Element)
    ensures !ElementThrows(Helpers(h), el)
  {
    BoolsDoNotThrow(BOOL_NAMES, el);
    ThrowsOfConcat(SingleVals(h), Bools(BOOL_NAMES), el);
    ThrowsOfConcat(SingleVals(h) + Bools(BOOL_NAMES), MINMAX_ADAPTERS, el);
  }

  lemma {:induction false} BuiltInsEffect(h: bool, el: Element, inputs: seq<Input>, rule: string)
    ensures EffectOf(BuiltIns(h), el, inputs, rule) ==
            Later(HelperRule(h, el, rule), CustomRule(el, inputs, rule))
  {
    EffectOfConcat(Helpers(h), CUSTOM_ADAPTERS, el, inputs, rule);
    HelpersEffect(h, el, inputs, rule);
    CustomsEffect(el, inputs, rule);
  }

  lemma {:induction false} BuiltInBoolsEffect(el: Element, inputs: seq<Input>, rule: string)
    ensures EffectOf(Bools(BOOL_NAMES), el, inputs, rule) == BoolRule(el, rule)
  {
    BoolsEffect(BOOL_NAMES, el, inputs, rule);
    var n := BOOL_NAMES;
    assert rule in n <==> rule == n[0] || rule == n[1] || rule == n[2] || rule == n[3] || rule == n[4] || rule == n[5];
  }

  /**
   * After parsing, an element has under the built-in adapters exactly the rules its attributes ask for,
   * with the values they give: each rule that the reference definition names, and no other.
   */
  lemma {:induction false} BuiltInRulesAre(h: bool, page: Page, el: Element, rule: string)
    requires !LacksOther(el)
    ensures Of(ElementRules(BuiltIns(h), page, el), rule) == BuiltInRule(h, page, el, rule)
  {
    var inputs := InputsOf(page, el);
    BuiltInsThrowIff(h, el);
    LaterAdaptersDecide(BuiltIns(h), el, inputs, rule);
    BuiltInsEffect(h, el, inputs, rule);
    DummyIsAdded(RulesAfter(ElementWrites(BuiltIns(h), el, inputs)), rule);
  }

  lemma DummyIsAdded(rules: Rules, rule: string)
    ensures Of(rules["__dummy__" := True], rule) == if rule == "__dummy__" then Some(True) else Of(rules, rule)
  {
  }

  /** If the built-in adapters throw, the rules of the adapters before `equalto` are there, and no others. */
  lemma {:induction false} RulesAfterAThrow(h: bool, page: Page, el: Element, rule: string)
    requires LacksOther(el)
    ensures Of(ElementRules(BuiltIns(h), page, el), rule) == HelperRule(h, el, rule)
  {
    var inputs := InputsOf(page, el);
    BuiltInsThrowIff(h, el);
    HelpersDoNotThrow(h, el);
    WritesStopAtEqualTo(h, el, inputs);
    LaterAdaptersDecide(Helpers(h), el, inputs, rule);
    HelpersEffect(h, el, inputs, rule);
  }

  lemma {:induction false} WritesStopAtEqualTo(h: bool, el: Element, inputs: seq<Input>)
    requires LacksOther(el)
    ensures ElementWrites(BuiltIns(h), el, inputs) == ElementWrites(Helpers(h), el, inputs)
  {
    assert "data-val-" + "equalto" == "data-val-equalto"
           && "data-val-equalto" + "-" + "other" == "data-val-equalto-other";
    assert BuiltIns(h)[..|Helpers(h)|] == Helpers(h) && BuiltIns(h)[|Helpers(h)|] == CUSTOM_ADAPTERS[0];
    ThrowStops(BuiltIns(h), |Helpers(h)|, el, inputs);
  }

  // ------------------------------------------------------------------------------------------
  // Some rules in full

  lemma {:induction false} NotSetNotSaid(adapters: seq<Adapter>, el: Element, inputs: seq<Input>, rule: string)
    requires EffectOf(adapters, el, inputs, rule) == None
    ensures SaidBy(adapters, el, inputs, rule) == None
  {
    if adapters != [] {
      NotSetNotSaid(Front(adapters), el, inputs, rule);
      EffectIs(Last(adapters), el, inputs, rule);
    }
  }

  /** If only one adapter sets a rule, the rule's message is its own. */
  lemma {:induction false} SoleSetterSpeaks(a: seq<Adapter>, ad: Adapter, b: seq<Adapter>, el: Element,
                                            inputs: seq<Input>, rule: string)
    requires EffectOf(a, el, inputs, rule) == None && EffectOf(b, el, inputs, rule) == None
    ensures SaidBy(a + [ad] + b, el, inputs, rule) == Said(ad, el, inputs, rule)
  {
    NotSetNotSaid(a, el, inputs, rule);
    NotSetNotSaid(b, el, inputs, rule);
    EffectOfConcat(a + [ad], b, el, inputs, rule);
    FrontOfAppend(a, ad);
  }

  /**
   * An element is required exactly if it has the attribute and is no checkbox; the message is the
   * attribute's, if that is not empty.
   */
  lemma {:induction false} RequiredIff(h: bool, page: Page, el: Element)
    requires !LacksOther(el)
    ensures var rules, messages := ElementRules(BuiltIns(h), page, el), ElementMessages(BuiltIns(h), page, el);
      && ("required" in rules <==> "data-val-required" in el.attributes && !el.isCheckbox)
      && ("required" in rules ==> rules["required"] == True)
      && ("required" in messages <==> "required" in rules && el.attributes["data-val-required"] != "")
      && ("required" in messages ==> messages["required"] == el.attributes["data-val-required"])
  {
    BuiltInRulesAre(h, page, el, "required");
    OnlyRequiredAsks(h, page, el);
    BuiltInsThrowIff(h, el);
    LaterAdaptersDecide(BuiltIns(h), el, InputsOf(page, el), "required");
    OnlyRequiredSetsRequired(h, el, InputsOf(page, el));
    RequiredIsSaid(el, InputsOf(page, el));
  }

  lemma OnlyRequiredAsks(h: bool, page: Page, el: Element)
    ensures BuiltInRule(h, page, el, "required") ==
            if "data-val-required" in el.attributes && !el.isCheckbox then Some(True) else None
  {
  }

  lemma {:induction false} RequiredIsSaid(el: Element, inputs: seq<Input>)
    ensures Said(CUSTOM_ADAPTERS[1], el, inputs, "required") ==
            if "data-val-required" in el.attributes && !el.isCheckbox && el.attributes["data-val-required"] != ""
            then Some(el.attributes["data-val-required"]) else None
  {
    EffectIs(CUSTOM_ADAPTERS[1], el, inputs, "required");
    RequiredEffect(el, inputs, "required");
    assert "data-val-" + "required" == "data-val-required";
  }

  lemma {:induction false} EarlierAdaptersDoNotRequire(h: bool, el: Element, inputs: seq<Input>)
    ensures EffectOf(Helpers(h) + [CUSTOM_ADAPTERS[0]], el, inputs, "required") == None
  {
    HelpersEffect(h, el, inputs, "required");
    EqualToEffect(el, inputs, "required");
    EffectOfMore(Helpers(h), CUSTOM_ADAPTERS[0], el, inputs, "required");
  }

  lemma {:induction false} LaterAdaptersDoNotRequire(el: Element, inputs: seq<Input>)
    ensures var ads := CUSTOM_ADAPTERS; EffectOf([ads[2]] + [ads[3]] + [ads[4]], el, inputs, "required") == None
  {
    var ads, r := CUSTOM_ADAPTERS, "required";
    RemoteEffect(el, inputs, r);
    PasswordEffect(el, inputs, r);
    FileExtensionsEffect(el, inputs, r);
    EffectOfOne(ads[2], el, inputs, r);
    EffectOfMore([ads[2]], ads[3], el, inputs, r);
    EffectOfMore([ads[2]] + [ads[3]], ads[4], el, inputs, r);
  }

  lemma {:induction false} OnlyRequiredSetsRequired(h: bool, el: Element, inputs: seq<Input>)
    ensures SaidBy(BuiltIns(h), el, inputs, "required") == Said(CUSTOM_ADAPTERS[1], el, inputs, "required")
  {
    var front, ads := Helpers(h), CUSTOM_ADAPTERS;
    EarlierAdaptersDoNotRequire(h, el, inputs);
    LaterAdaptersDoNotRequire(el, inputs);
    SoleSetterSpeaks(front + [ads[0]], ads[1], [ads[2]] + [ads[3]] + [ads[4]], el, inputs, "required");
    assert BuiltIns(h) == front + [ads[0]] + [ads[1]] + ([ads[2]] + [ads[3]] + [ads[4]]);
  }

  /**
   * The target of `equalTo` is the first input of the element's form named as `other` says: an absolute
   * name as it is, and `*.` before a name as the element's own prefix, if that has no replacement pattern.
   */
  lemma {:induction false} EqualToIs(h: bool, page: Page, el: Element, form: nat)
    requires "data-val-equalto" in el.attributes && "data-val-equalto-other" in el.attributes
    requires el.form == Some(form) && form in page
    ensures var other, prefix, rules :=
        el.attributes["data-val-equalto-other"], GetModelPrefix(el.name), ElementRules(BuiltIns(h), page, el);
      var name := if "*." <= other then prefix + other[2..] else other;
      && "equalTo" in rules && rules["equalTo"].Target?
      && (("*." <= other ==> !HasPattern(prefix)) && (|page[form]| != 1 || !NulIsMisread(name)) ==>
          IsFirstNamed(page[form], rules["equalTo"].input, name))
  {
    var other, prefix := el.attributes["data-val-equalto-other"], GetModelPrefix(el.name);
    BuiltInRulesAre(h, page, el, "equalTo");
    LookupFindsTheFirst(page[form], if "*." <= other then prefix + other[2..] else other);
    if "*." <= other && !HasPattern(prefix) {
      NoPatternMeansItself(prefix, other[2..]);
    }
  }

  /** The `remote` rule: the given url and verb, `GET` by default, and the element itself if no fields are listed. */
  lemma {:induction false} RemoteIs(h: bool, page: Page, el: Element)
    requires !LacksOther(el) && "data-val-remote" in el.attributes
    ensures var attributes, rules := el.attributes, ElementRules(BuiltIns(h), page, el);
      && "remote" in rules && rules["remote"].Remote?
      && rules["remote"].url == (if "data-val-remote-url" in attributes
                                 then Some(attributes["data-val-remote-url"]) else None)
      && rules["remote"].verb == (if "data-val-remote-type" in attributes && attributes["data-val-remote-type"] != ""
                                  then attributes["data-val-remote-type"] else "GET")
      && (("data-val-remote-additionalfields" !in attributes || attributes["data-val-remote-additionalfields"] == "") &&
          ',' !in el.name && !("*." <= el.name) &&
          (el.name != "" ==> el.name[0] !in JS_SPACES && Last(el.name) !in JS_SPACES)
          ==> rules["remote"].fields == {el.name})
  {
    BuiltInRulesAre(h, page, el, "remote");
    RemoteDecides(h, page, el);
    if ',' !in el.name && !("*." <= el.name) {
      LoneField(el.name, GetModelPrefix(el.name));
    }
  }

  lemma RemoteDecides(h: bool, page: Page, el: Element)
    requires "data-val-remote" in el.attributes
    ensures BuiltInRule(h, page, el, "remote") == CustomRule(el, InputsOf(page, el), "remote")
    ensures CustomRule(el, InputsOf(page, el), "remote").Some?
  {
    assert "equalTo" != "remote" && "required" != "remote" && "__dummy__" != "remote";
  }

  /** A clean absolute name is listed as itself. */
  lemma {:induction false} LoneField(name: string, prefix: string)
    requires ',' !in name && !("*." <= name)
    ensures var names := SplitAndTrim(name);
      (name != "" ==> name[0] !in JS_SPACES && Last(name) !in JS_SPACES) ==>
        (set i | 0 <= i < |names| :: AppendModelPrefix(names[i], prefix)) == {name}
  {
    var field := Padded("", name, "");
    if IsField(field) {
      SplittingInvertsJoining([field]);
      assert "" + name + "" == name && Join([field]) == name;
      assert TokensOf([field]) == [name];
      assert SplitAndTrim(name)[0] == name;
    }
  }

  /**
   * After parsing a page on which no marked element of a form lacks its `other`, every name has exactly
   * the rules that the attributes of its last marked element in the form ask for.
   */
  lemma {:induction false} ParsedPageHas(h: bool, page: Page, els: seq<Element>, marked: seq<Element>, k: nat,
                                         form: nat, name: string, rule: string)
    requires forall el | el in els :: Attribute(el, "data-val") != Some("true") || el.form == None || !LacksOther(el)
    requires MarkedOf(els) == marked && IsLastAt(marked, k, form, name)
    ensures var infos := ParsedAll(BuiltIns(h), page, map[], Visited(BuiltIns(h), els));
      && form in infos && name in infos[form].rules
      && Of(infos[form].rules[name], rule) == BuiltInRule(h, page, marked[k], rule)
  {
    forall el | el in els
      ensures !Stops(BuiltIns(h), el)
    {
      BuiltInsThrowIff(h, el);
    }
    AllMarkedAreVisited(BuiltIns(h), els);
    LastElementWins(BuiltIns(h), page, map[], marked, k, form, name);
    MarkedAreElements(els, marked[k]);
    assert Attribute(marked[k], "data-val") == Some("true");
    BuiltInRulesAre(h, page, marked[k], rule);
  }

  lemma {:induction false} MarkedAreElements(els: seq<Element>, el: Element)
    requires el in MarkedOf(els)
    ensures el in els && Attribute(el, "data-val") == Some("true")
  {
    if el in MarkedOf(Front(els)) {
      MarkedAreElements(Front(els), el);
    }
  }
}
