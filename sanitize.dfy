/**
 * The clean-up export_record applies to a NUDS document before it is stored: a sequence of
 * XPath passes, each selecting every element that carries one attribute and rewriting or
 * removing attributes of that element.
 *
 *   - `@certainty` "true"/"boolean_true" becomes the nomisma uncertain-value URI (moved to
 *     the end of the attribute list, since it is removed and set again);
 *     "false"/"boolean_false"/"" is removed; any other value stays.
 *   - `@variant` "false"/"boolean_false"/"" is removed.
 *   - an empty `@xlink:href` is removed together with `@xlink:type`.
 *   - only when the record has no images: an empty `@calendar` and an empty `@standardDate`
 *     are removed.
 */
module Sanitizer {
  import opened Common
  import opened Assoc
  import opened Xml

  const UncertainValue: string := "http://nomisma.org/id/uncertain_value"

  datatype Rule = Certainty | Variant | EmptyLink | EmptyCalendar | EmptyStandardDate

  predicate IsTrue(v: string) { v == "true" || v == "boolean_true" }

  /** The values the scripts read as false; the empty string is `strlen(...) == 0`. */
  predicate IsFalse(v: string) { v == "false" || v == "boolean_false" || v == "" }

  /** The attribute whose value decides what a rule does. */
  function Reads(r: Rule): string
  {
    match r
    case Certainty => "certainty"
    case Variant => "variant"
    case EmptyLink => "xlink:href"
    case EmptyCalendar => "calendar"
    case EmptyStandardDate => "standardDate"
  }

  /** The attributes a rule may remove or set. */
  function Writes(r: Rule): set<string>
  {
    if r == EmptyLink then {"xlink:href", "xlink:type"} else {Reads(r)}
  }

  /** One rule applied to the attributes of one element. */
  function Apply(r: Rule, a: Entries): Entries
  {
    match r
    case Certainty =>
      (match Get(a, "certainty")
       case None => a
       case Some(c) =>
         if IsTrue(c) then Put(Remove(a, "certainty"), "certainty", UncertainValue)
         else if IsFalse(c) then Remove(a, "certainty")
         else a)
    case Variant =>
      (match Get(a, "variant")
       case Some(v) => if IsFalse(v) then Remove(a, "variant") else a
       case None => a)
    case EmptyLink =>
      if Get(a, "xlink:href") == Some("") then Remove(Remove(a, "xlink:href"), "xlink:type") else a
    case EmptyCalendar =>
      if Get(a, "calendar") == Some("") then Remove(a, "calendar") else a
    case EmptyStandardDate =>
      if Get(a, "standardDate") == Some("") then Remove(a, "standardDate") else a
  }

  /** The attribute a rule reads no longer holds a value the rule acts on. */
  predicate Settled(r: Rule, a: Entries)
  {
    match Get(a, Reads(r))
    case None => true
    case Some(v) =>
      match r
      case Certainty => !IsTrue(v) && !IsFalse(v)
      case Variant => !IsFalse(v)
      case _ => v != ""
  }

  /** A rule leaves its attribute settled. */
  lemma {:induction false} ApplySettles(r: Rule, a: Entries)
    ensures Settled(r, Apply(r, a))
  {
    match r
    case Certainty =>
      if Get(a, "certainty").Some? {
        GetRemove(a, "certainty", "certainty");
        GetPut(Remove(a, "certainty"), "certainty", UncertainValue, "certainty");
      }
    case Variant => GetRemove(a, "variant", "variant");
    case EmptyLink =>
      GetRemove(a, "xlink:href", "xlink:href");
      GetRemove(Remove(a, "xlink:href"), "xlink:type", "xlink:href");
    case EmptyCalendar => GetRemove(a, "calendar", "calendar");
    case EmptyStandardDate => GetRemove(a, "standardDate", "standardDate");
  }

  /** A rule changes nothing on an element whose attribute is already settled. */
  lemma {:induction false} SettledFixed(r: Rule, a: Entries)
    requires Settled(r, a)
    ensures Apply(r, a) == a
  {
  }

  /** A rule never changes an attribute outside the ones it writes. */
  lemma {:induction false} ApplyKeeps(r: Rule, a: Entries, k: string)
    requires k !in Writes(r)
    ensures Get(Apply(r, a), k) == Get(a, k)
  {
    match r
    case Certainty =>
      GetRemove(a, "certainty", k);
      GetPut(Remove(a, "certainty"), "certainty", UncertainValue, k);
    case Variant => GetRemove(a, "variant", k);
    case EmptyLink =>
      GetRemove(a, "xlink:href", k);
      GetRemove(Remove(a, "xlink:href"), "xlink:type", k);
    case EmptyCalendar => GetRemove(a, "calendar", k);
    case EmptyStandardDate => GetRemove(a, "standardDate", k);
  }

  /** The rules in pass order; the two date rules run only for a record without images. */
  function Rules(dates: bool): (rules: seq<Rule>)
    ensures |rules| == if dates then 5 else 3
    ensures forall r, r' :: r in rules && r' in rules && r != r' ==> Reads(r) !in Writes(r')
  {
    [Certainty, Variant, EmptyLink] + (if dates then [EmptyCalendar, EmptyStandardDate] else [])
  }

  /** The certainty, variant and link rules always run; the two empty-date rules exactly when `dates` is set. */
  lemma {:induction false} RulesChosen(dates: bool)
    ensures Certainty in Rules(dates) && Variant in Rules(dates) && EmptyLink in Rules(dates)
    ensures EmptyCalendar in Rules(dates) <==> dates
    ensures EmptyStandardDate in Rules(dates) <==> dates
  {
    var rules := Rules(dates);
    assert rules[0] == Certainty && rules[1] == Variant && rules[2] == EmptyLink;
    if dates {
      assert rules[3] == EmptyCalendar && rules[4] == EmptyStandardDate;
    } else {
      assert rules == [Certainty, Variant, EmptyLink];
    }
  }

  /** The rules applied in order to the attributes of one element. */
  function ApplyAll(rules: seq<Rule>, a: Entries): Entries
    decreases |rules|
  {
    if rules == [] then a else ApplyAll(rules[1..], Apply(rules[0], a))
  }

  lemma {:induction false} ApplyAllKeeps(rules: seq<Rule>, a: Entries, k: string)
    requires forall r :: r in rules ==> k !in Writes(r)
    ensures Get(ApplyAll(rules, a), k) == Get(a, k)
    decreases |rules|
  {
    if rules != [] {
      ApplyKeeps(rules[0], a, k);
      ApplyAllKeeps(rules[1..], Apply(rules[0], a), k);
    }
  }

  lemma {:induction false} ApplyAllSettles(rules: seq<Rule>, a: Entries, r: Rule)
    requires r in rules
    requires forall r' :: r' in rules && r' != r ==> Reads(r) !in Writes(r')
    ensures Settled(r, ApplyAll(rules, a))
    decreases |rules|
  {
    var b := Apply(rules[0], a);
    if r in rules[1..] {
      ApplyAllSettles(rules[1..], b, r);
    } else {
      ApplySettles(r, a);
      ApplyAllKeeps(rules[1..], b, Reads(r));
    }
  }

  lemma {:induction false} ApplyAllFixed(rules: seq<Rule>, a: Entries)
    requires forall r :: r in rules ==> Settled(r, a)
    ensures ApplyAll(rules, a) == a
    decreases |rules|
  {
    if rules != [] {
      SettledFixed(rules[0], a);
      ApplyAllFixed(rules[1..], a);
    }
  }

  /** The attributes of one element after all the passes. */
  function SanitizeAttrs(a: Entries, dates: bool): Entries
  {
    ApplyAll(Rules(dates), a)
  }

  /** An element no pass would change. */
  predicate Clean(a: Entries, dates: bool)
  {
    forall r :: r in Rules(dates) ==> Settled(r, a)
  }

  /** After the passes no element carries a value they act on. */
  lemma {:induction false} SanitizeAttrsClean(a: Entries, dates: bool)
    ensures Clean(SanitizeAttrs(a, dates), dates)
  {
    forall r | r in Rules(dates) ensures Settled(r, SanitizeAttrs(a, dates)) {
      ApplyAllSettles(Rules(dates), a, r);
    }
  }

  /** Running the passes a second time changes nothing. */
  lemma {:induction false} SanitizeAttrsIdempotent(a: Entries, dates: bool)
    ensures SanitizeAttrs(SanitizeAttrs(a, dates), dates) == SanitizeAttrs(a, dates)
  {
    SanitizeAttrsClean(a, dates);
    ApplyAllFixed(Rules(dates), SanitizeAttrs(a, dates));
  }

  /** Every attribute the passes do not name reads as before; on the image path that includes the dates. */
  lemma {:induction false} SanitizeAttrsKeeps(a: Entries, dates: bool, k: string)
    requires k != "certainty" && k != "variant" && k != "xlink:href" && k != "xlink:type"
    requires dates ==> k != "calendar" && k != "standardDate"
    ensures Get(SanitizeAttrs(a, dates), k) == Get(a, k)
  {
    ApplyAllKeeps(Rules(dates), a, k);
  }

  /** The complete fate of `@certainty`. */
  lemma {:induction false} SanitizeCertainty(a: Entries, dates: bool)
    ensures Get(SanitizeAttrs(a, dates), "certainty") ==
      match Get(a, "certainty")
      case None => None
      case Some(c) => if IsTrue(c) then Some(UncertainValue) else if IsFalse(c) then None else Some(c)
  {
    var b := Apply(Certainty, a);
    ApplyAllKeeps(Rules(dates)[1..], b, "certainty");
    GetRemove(a, "certainty", "certainty");
    GetPut(Remove(a, "certainty"), "certainty", UncertainValue, "certainty");
  }

  /** The complete fate of `@variant`. */
  lemma {:induction false} SanitizeVariant(a: Entries, dates: bool)
    ensures Get(SanitizeAttrs(a, dates), "variant") ==
      match Get(a, "variant")
      case None => None
      case Some(v) => if IsFalse(v) then None else Some(v)
  {
    var rules := Rules(dates);
    var b := Apply(Certainty, a);
    var c := Apply(Variant, b);
    assert rules[1..][1..] == rules[2..];
    assert SanitizeAttrs(a, dates) == ApplyAll(rules[1..], b) == ApplyAll(rules[2..], c);
    ApplyKeeps(Certainty, a, "variant");
    GetRemove(b, "variant", "variant");
    ApplyAllKeeps(Rules(dates)[2..], c, "variant");
  }

  /** An empty `@xlink:href` disappears together with `@xlink:type`; otherwise both stay. */
  lemma {:induction false} SanitizeLink(a: Entries, dates: bool)
    ensures Get(a, "xlink:href") == Some("") ==>
      Get(SanitizeAttrs(a, dates), "xlink:href").None? && Get(SanitizeAttrs(a, dates), "xlink:type").None?
    ensures Get(a, "xlink:href") != Some("") ==>
      Get(SanitizeAttrs(a, dates), "xlink:href") == Get(a, "xlink:href") &&
      Get(SanitizeAttrs(a, dates), "xlink:type") == Get(a, "xlink:type")
  {
    var b := Apply(Variant, Apply(Certainty, a));
    var c := Apply(EmptyLink, b);
    ApplyKeeps(Certainty, a, "xlink:href");
    ApplyKeeps(Certainty, a, "xlink:type");
    ApplyKeeps(Variant, Apply(Certainty, a), "xlink:href");
    ApplyKeeps(Variant, Apply(Certainty, a), "xlink:type");
    GetRemove(b, "xlink:href", "xlink:href");
    GetRemove(Remove(b, "xlink:href"), "xlink:type", "xlink:href");
    GetRemove(b, "xlink:href", "xlink:type");
    GetRemove(Remove(b, "xlink:href"), "xlink:type", "xlink:type");
    var rules := Rules(dates);
    assert rules[1..][1..] == rules[2..] && rules[2..][1..] == rules[3..];
    assert SanitizeAttrs(a, dates) == ApplyAll(rules[1..], Apply(Certainty, a)) == ApplyAll(rules[2..], b);
    assert ApplyAll(rules[2..], b) == ApplyAll(rules[3..], c);
    ApplyAllKeeps(Rules(dates)[3..], c, "xlink:href");
    ApplyAllKeeps(Rules(dates)[3..], c, "xlink:type");
  }

  /**
   * The complete fate of `@calendar` and `@standardDate`: on the no-image path an empty value
   * is removed and any other is kept; on the image path both are untouched.
   */
  lemma {:induction false} SanitizeDates(a: Entries, dates: bool)
    ensures Get(SanitizeAttrs(a, dates), "calendar") ==
      if dates && Get(a, "calendar") == Some("") then None else Get(a, "calendar")
    ensures Get(SanitizeAttrs(a, dates), "standardDate") ==
      if dates && Get(a, "standardDate") == Some("") then None else Get(a, "standardDate")
  {
    if !dates {
      SanitizeAttrsKeeps(a, dates, "calendar");
      SanitizeAttrsKeeps(a, dates, "standardDate");
    } else {
      var rules := Rules(dates);
      var b := Apply(Variant, Apply(Certainty, a));
      var c := Apply(EmptyLink, b);
      var d := Apply(EmptyCalendar, c);
      var e := Apply(EmptyStandardDate, d);
      assert rules[1..][1..] == rules[2..] && rules[2..][1..] == rules[3..];
      assert rules[3..][1..] == rules[4..] && rules[4..][1..] == [];
      assert SanitizeAttrs(a, dates) == ApplyAll(rules[1..], Apply(Certainty, a)) == ApplyAll(rules[2..], b);
      assert ApplyAll(rules[2..], b) == ApplyAll(rules[3..], c) == ApplyAll(rules[4..], d) == e;
      DatesKept(a, "calendar");
      DatesKept(a, "standardDate");
      GetRemove(c, "calendar", "calendar");
      ApplyKeeps(EmptyStandardDate, d, "calendar");
      ApplyKeeps(EmptyCalendar, c, "standardDate");
      GetRemove(d, "standardDate", "standardDate");
    }
  }

  /** The certainty, variant and link rules leave a date attribute as it was. */
  lemma {:induction false} DatesKept(a: Entries, k: string)
    requires k == "calendar" || k == "standardDate"
    ensures Get(Apply(EmptyLink, Apply(Variant, Apply(Certainty, a))), k) == Get(a, k)
  {
    ApplyKeeps(Certainty, a, k);
    ApplyKeeps(Variant, Apply(Certainty, a), k);
    ApplyKeeps(EmptyLink, Apply(Variant, Apply(Certainty, a)), k);
  }

  // ----- the passes over the document -----

  /** One XPath pass: every element of the tree, the root included, gets the rule; text is untouched. */
  function Pass(r: Rule, n: Node): (m: Node)
    ensures m.Element? == n.Element? && (n.Element? ==> m.name == n.name && |m.children| == |n.children|)
    decreases n
  {
    match n
    case Text(_) => n
    case Element(name, attrs, children) =>
      Element(name, Apply(r, attrs), seq(|children|, i requires 0 <= i < |children| => Pass(r, children[i])))
  }

  /** The passes in order, each over the whole tree. */
  function Passes(rules: seq<Rule>, n: Node): (m: Node)
    ensures m.Element? == n.Element? && (n.Element? ==> m.name == n.name)
    decreases |rules|
  {
    if rules == [] then n else Passes(rules[1..], Pass(rules[0], n))
  }

  /** The clean-up of a NUDS document; `dates` is set for a record without images. */
  function Sanitize(n: Node, dates: bool): (m: Node)
    ensures m.Element? == n.Element? && (n.Element? ==> m.name == n.name)
  {
    Passes(Rules(dates), n)
  }

  /** Every element's attributes replaced by the given rules applied in order; everything else kept. */
  function MapAttrs(rules: seq<Rule>, n: Node): (m: Node)
    ensures m.Element? == n.Element? && (n.Element? ==> m.name == n.name && |m.children| == |n.children|)
    decreases n
  {
    match n
    case Text(_) => n
    case Element(name, attrs, children) =>
      Element(name, ApplyAll(rules, attrs), seq(|children|, i requires 0 <= i < |children| => MapAttrs(rules, children[i])))
  }

  lemma {:induction false} MapAfterPass(r: Rule, rules: seq<Rule>, n: Node)
    ensures MapAttrs(rules, Pass(r, n)) == MapAttrs([r] + rules, n)
    decreases n
  {
    match n
    case Text(_) =>
    case Element(name, attrs, children) =>
      assert ([r] + rules)[1..] == rules;
      forall i | 0 <= i < |children|
        ensures MapAttrs(rules, Pass(r, children[i])) == MapAttrs([r] + rules, children[i])
      {
        MapAfterPass(r, rules, children[i]);
      }
  }

  lemma {:induction false} MapAttrsNone(n: Node)
    ensures MapAttrs([], n) == n
    decreases n
  {
    match n
    case Text(_) =>
    case Element(name, attrs, children) =>
      forall i | 0 <= i < |children| ensures MapAttrs([], children[i]) == children[i] {
        MapAttrsNone(children[i]);
      }
  }

  /**
   * The passes, each over the whole tree, do what a single walk applying all the rules to
   * each element does: a pass reads and writes only the attributes of the element it visits.
   */
  lemma {:induction false} PassesPerElement(rules: seq<Rule>, n: Node)
    ensures Passes(rules, n) == MapAttrs(rules, n)
    decreases |rules|
  {
    if rules == [] {
      MapAttrsNone(n);
    } else {
      PassesPerElement(rules[1..], Pass(rules[0], n));
      MapAfterPass(rules[0], rules[1..], n);
      assert [rules[0]] + rules[1..] == rules;
    }
  }

  /** Every element of the tree is clean. */
  ghost predicate TreeClean(n: Node, dates: bool)
    decreases n
  {
    match n
    case Text(_) => true
    case Element(_, attrs, children) =>
      Clean(attrs, dates) && forall i :: 0 <= i < |children| ==> TreeClean(children[i], dates)
  }

  lemma {:induction false} MapClean(n: Node, dates: bool)
    ensures TreeClean(MapAttrs(Rules(dates), n), dates)
    decreases n
  {
    match n
    case Text(_) =>
    case Element(name, attrs, children) =>
      SanitizeAttrsClean(attrs, dates);
      forall i | 0 <= i < |children| ensures TreeClean(MapAttrs(Rules(dates), children[i]), dates) {
        MapClean(children[i], dates);
      }
  }

  /** After the clean-up no element of the document carries a value the passes act on. */
  lemma {:induction false} SanitizeClean(n: Node, dates: bool)
    ensures TreeClean(Sanitize(n, dates), dates)
  {
    PassesPerElement(Rules(dates), n);
    MapClean(n, dates);
  }

  lemma {:induction false} MapIdempotent(n: Node, dates: bool)
    ensures MapAttrs(Rules(dates), MapAttrs(Rules(dates), n)) == MapAttrs(Rules(dates), n)
    decreases n
  {
    match n
    case Text(_) =>
    case Element(name, attrs, children) =>
      SanitizeAttrsIdempotent(attrs, dates);
      forall i | 0 <= i < |children|
        ensures MapAttrs(Rules(dates), MapAttrs(Rules(dates), children[i])) == MapAttrs(Rules(dates), children[i])
      {
        MapIdempotent(children[i], dates);
      }
  }

  /** Cleaning a cleaned document changes nothing. */
  lemma {:induction false} SanitizeIdempotent(n: Node, dates: bool)
    ensures Sanitize(Sanitize(n, dates), dates) == Sanitize(n, dates)
  {
    PassesPerElement(Rules(dates), n);
    PassesPerElement(Rules(dates), Sanitize(n, dates));
    MapIdempotent(n, dates);
  }

  /** The clean-up keeps the tree: names, text and child order; only attributes of elements change. */
  lemma {:induction false} SanitizeShape(n: Node, dates: bool)
    ensures Sanitize(n, dates) == MapAttrs(Rules(dates), n)
    ensures n.Element? ==> Sanitize(n, dates).Element? && Sanitize(n, dates).name == n.name
  {
    PassesPerElement(Rules(dates), n);
  }
}
