/**
 * Turning an element's `data-val-*` attributes into rules and messages: the adapters, as values, and
 * what a list of rule assignments amounts to.
 */
module Adapters {
  import opened Common
  import opened Selectors
  import opened FieldLists
  import opened ModelNames

  /** What a rule can be set to. `Text(None)` is an attribute that is not there. */
  datatype Value =
    | True
    | Text(text: Option<string>)
    | Both(min: string, max: string)
    | Target(input: Option<Input>)
    | Remote(url: Option<string>, verb: string, fields: set<string>)

  /** The function of an adapter. */
  datatype Kind =
    | Bool(rule: string)
    | SingleVal(attribute: string, rule: string)
    | MinMax(minRule: string, maxRule: string, bothRule: string)
    | EqualTo
    | Required
    | RemoteCall
    | Password
    | FileExtensions

  datatype Adapter = Adapter(name: string, params: seq<string>, kind: Kind)

  /** A form control; `form` is the form around it, if any. */
  datatype Element = Element(
    name: string,
    isCheckbox: bool,
    form: Option<nat>,
    attributes: map<string, string>)

  /** The inputs of each form, in document order. */
  type Page = map<nat, seq<Input>>

  /** The name that JavaScript gives a rule name that was left out. */
  const UNDEFINED := "undefined"
  const DUMMY := "__dummy__"

  type Rules = map<string, Value>
  type Messages = map<string, string>

  /** One assignment of a rule, with the message of the adapter that makes it. */
  datatype Write = Write(rule: string, value: Value, message: string)

  function Attribute(el: Element, name: string): Option<string> {
    if name in el.attributes then Some(el.attributes[name]) else None
  }

  function Message(ad: Adapter, el: Element): Option<string> {
    Attribute(el, "data-val-" + ad.name)
  }

  /** A parameter is read only if the adapter declares it. */
  function Param(ad: Adapter, el: Element, param: string): Option<string> {
    if param in ad.params then Attribute(el, "data-val-" + ad.name + "-" + param) else None
  }

  /** Present and not empty. */
  predicate Truthy(o: Option<string>) {
    o.Some? && o.value != ""
  }

  function InputsOf(page: Page, el: Element): seq<Input> {
    if el.form.Some? && el.form.value in page then page[el.form.value] else []
  }

  /** Reading the missing `other` of an `equalto` throws. */
  predicate Throws(ad: Adapter, el: Element) {
    ad.kind.EqualTo? && Param(ad, el, "other").None?
  }

  function OtherName(ad: Adapter, el: Element): string
    requires Param(ad, el, "other").Some?
  {
    AppendModelPrefix(Param(ad, el, "other").value, GetModelPrefix(el.name))
  }

  function RemoteFields(ad: Adapter, el: Element): set<string> {
    var listed := Param(ad, el, "additionalfields");
    var names := SplitAndTrim(if Truthy(listed) then listed.value else el.name);
    set i | 0 <= i < |names| :: AppendModelPrefix(names[i], GetModelPrefix(el.name))
  }

  /** The rules an adapter sets on an element, in order. */
  function Sets(ad: Adapter, el: Element, inputs: seq<Input>): seq<(string, Value)>
    requires !Throws(ad, el)
  {
    match ad.kind
    case Bool(rule) => [(rule, True)]
    case SingleVal(attribute, rule) => [(rule, Text(Param(ad, el, attribute)))]
    case MinMax(_, _, _) => BoundSets(ad.kind, Param(ad, el, "min"), Param(ad, el, "max"))
    case EqualTo => [("equalTo", Target(FirstMatch(inputs, NameSelector(OtherName(ad, el)))))]
    case Required => if el.isCheckbox then [] else [("required", True)]
    case RemoteCall =>
      var verb := Param(ad, el, "type");
      [("remote", Remote(Param(ad, el, "url"), if Truthy(verb) then verb.value else "GET", RemoteFields(ad, el)))]
    case Password =>
      SetIfTruthy("minlength", Param(ad, el, "min")) +
      SetIfTruthy("nonalphamin", Param(ad, el, "nonalphamin")) +
      SetIfTruthy("regex", Param(ad, el, "regex"))
    case FileExtensions => [("extension", Text(Param(ad, el, "extensions")))]
  }

  /** The rule of a min-max adapter for these bounds. */
  function BoundSets(kind: Kind, min: Option<string>, max: Option<string>): seq<(string, Value)>
    requires kind.MinMax?
  {
    if Truthy(min) && Truthy(max) then [(kind.bothRule, Both(min.value, max.value))]
    else if Truthy(min) then [(kind.minRule, Text(min))]
    else if Truthy(max) then [(kind.maxRule, Text(max))]
    else []
  }

  function SetIfTruthy(rule: string, param: Option<string>): seq<(string, Value)> {
    if Truthy(param) then [(rule, Text(param))] else []
  }

  function WithMessage(sets: seq<(string, Value)>, message: string): (writes: seq<Write>)
    ensures |writes| == |sets|
    ensures forall i :: 0 <= i < |sets| ==> writes[i] == Write(sets[i].0, sets[i].1, message)
  {
    seq(|sets|, i requires 0 <= i < |sets| => Write(sets[i].0, sets[i].1, message))
  }

  /** The assignments of one adapter: none unless its message attribute is there. */
  function AdapterWrites(ad: Adapter, el: Element, inputs: seq<Input>): seq<Write> {
    if Message(ad, el).None? || Throws(ad, el) then []
    else WithMessage(Sets(ad, el, inputs), Message(ad, el).value)
  }

  predicate AdapterThrows(ad: Adapter, el: Element) {
    Message(ad, el).Some? && Throws(ad, el)
  }

  /** All adapters in order, up to one that throws. */
  function ElementWrites(adapters: seq<Adapter>, el: Element, inputs: seq<Input>): seq<Write> {
    if adapters == [] then []
    else
      ElementWrites(Front(adapters), el, inputs) +
      if ElementThrows(Front(adapters), el) then [] else AdapterWrites(Last(adapters), el, inputs)
  }

  predicate ElementThrows(adapters: seq<Adapter>, el: Element) {
    exists i :: 0 <= i < |adapters| && AdapterThrows(adapters[i], el)
  }

  // ------------------------------------------------------------------------------------------
  // What a list of assignments leaves behind

  function SetRule(rules: Rules, w: Write): Rules {
    rules[w.rule := w.value]
  }

  /** An empty message is not stored, and does not clear an earlier one. */
  function SetMessage(messages: Messages, w: Write): Messages {
    if w.message != "" then messages[w.rule := w.message] else messages
  }

  function RulesAfter(writes: seq<Write>): Rules {
    if writes == [] then map[] else SetRule(RulesAfter(Front(writes)), Last(writes))
  }

  function MessagesAfter(writes: seq<Write>): Messages {
    if writes == [] then map[] else SetMessage(MessagesAfter(Front(writes)), Last(writes))
  }

  /** Assignment `i` is the last one of its rule. */
  ghost predicate IsLastWrite(writes: seq<Write>, i: nat) {
    i < |writes| && forall k :: i < k < |writes| ==> writes[k].rule != writes[i].rule
  }

  /** Assignment `i` is the last one of its rule with a message. */
  ghost predicate IsLastMessage(writes: seq<Write>, i: nat) {
    && i < |writes| && writes[i].message != ""
    && forall k :: i < k < |writes| && writes[k].rule == writes[i].rule ==> writes[k].message == ""
  }

  /** Some assignment sets `rule`. */
  ghost predicate IsSet(writes: seq<Write>, rule: string) {
    exists i :: 0 <= i < |writes| && writes[i].rule == rule
  }

  /** A rule is there if and only if it was assigned ... */
  lemma {:induction false} RuleIsThereIff(writes: seq<Write>, rule: string)
    ensures rule in RulesAfter(writes) <==> IsSet(writes, rule)
  {
    if writes != [] {
      RuleIsThereIff(Front(writes), rule);
      if IsSet(Front(writes), rule) {
        var i :| 0 <= i < |Front(writes)| && Front(writes)[i].rule == rule;
        assert writes[i].rule == rule;
      }
    }
  }

  /** ... and has the value of its last assignment. */
  lemma {:induction false} LastWriteWins(writes: seq<Write>, i: nat)
    requires IsLastWrite(writes, i)
    ensures writes[i].rule in RulesAfter(writes) && RulesAfter(writes)[writes[i].rule] == writes[i].value
  {
    if i < |writes| - 1 {
      assert IsLastWrite(Front(writes), i);
      LastWriteWins(Front(writes), i);
    }
  }

  /** Some assignment of `rule` had a message. */
  ghost predicate HasMessage(writes: seq<Write>, rule: string) {
    exists i :: 0 <= i < |writes| && writes[i].rule == rule && writes[i].message != ""
  }

  /** A message is there if and only if some assignment of its rule had one ... */
  lemma {:induction false} MessageIsThereIff(writes: seq<Write>, rule: string)
    ensures rule in MessagesAfter(writes) <==> HasMessage(writes, rule)
  {
    if writes != [] {
      MessageIsThereIff(Front(writes), rule);
      if HasMessage(Front(writes), rule) {
        var i :| 0 <= i < |Front(writes)| && Front(writes)[i].rule == rule && Front(writes)[i].message != "";
        assert writes[i].rule == rule && writes[i].message != "";
      }
    }
  }

  /** ... and the last such message stays. */
  lemma {:induction false} LastMessageStays(writes: seq<Write>, i: nat)
    requires IsLastMessage(writes, i)
    ensures writes[i].rule in MessagesAfter(writes) && MessagesAfter(writes)[writes[i].rule] == writes[i].message
  {
    if i < |writes| - 1 {
      assert IsLastMessage(Front(writes), i);
      LastMessageStays(Front(writes), i);
    }
  }

  /** Every assigned rule was assigned at least once with a message. */
  ghost predicate EveryRuleHadAMessage(writes: seq<Write>) {
    forall i | 0 <= i < |writes| :: HasMessage(writes, writes[i].rule)
  }

  /** Every message belongs to a rule; they match exactly when every assigned rule once had a message. */
  lemma {:induction false} MessageKeysAreRuleKeys(writes: seq<Write>)
    ensures MessagesAfter(writes).Keys <= RulesAfter(writes).Keys
    ensures MessagesAfter(writes).Keys == RulesAfter(writes).Keys <==> EveryRuleHadAMessage(writes)
  {
    forall rule
      ensures rule in MessagesAfter(writes) <==> HasMessage(writes, rule)
      ensures rule in RulesAfter(writes) <==> IsSet(writes, rule)
    {
      RuleIsThereIff(writes, rule);
      MessageIsThereIff(writes, rule);
    }
    if MessagesAfter(writes).Keys == RulesAfter(writes).Keys {
      forall i | 0 <= i < |writes|
        ensures HasMessage(writes, writes[i].rule)
      {
        assert writes[i].rule in RulesAfter(writes).Keys;
        assert writes[i].rule in MessagesAfter(writes).Keys;
      }
    }
  }

  /**
   * A rule's message is that of the adapter that last set the rule - or absent, if that message is
   * empty - unless that message is empty and an earlier one is left over.
   */
  lemma {:induction false} MessageIsOfLastWriterIff(writes: seq<Write>, i: nat)
    requires IsLastWrite(writes, i)
    ensures var rule, messages := writes[i].rule, MessagesAfter(writes);
      (if writes[i].message == "" then rule !in messages
       else rule in messages && messages[rule] == writes[i].message)
      <==> (writes[i].message != "" || !HasMessage(writes, rule))
  {
    MessageIsThereIff(writes, writes[i].rule);
    if writes[i].message != "" {
      LastMessageStays(writes, i);
    }
  }
}
