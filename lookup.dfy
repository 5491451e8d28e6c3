/**
 How `inject` and `extract` find a propagator as the source writes it:
 `this._propagators[format]` is a property read on a plain object literal, so besides
 the table's own keys it also finds every member the literal inherits from
 `Object.prototype`. Each of those is a function or an object, hence truthy, and has no
 `inject` or `extract` method, so the call after the guard throws a TypeError.

 The model the rest of the project uses (`Steps.Inject`, `Steps.Extract` and the
 `Tracer` methods) looks up own keys only, as the guard evidently intends.
 */
module PropagatorLookup {
  import opened Ports
  import Steps

  /** The property names a plain object literal inherits from `Object.prototype`. */
  const InheritedNames: set<string> := {
    "constructor", "__proto__", "hasOwnProperty", "isPrototypeOf",
    "propertyIsEnumerable", "toString", "toLocaleString", "valueOf",
    "__defineGetter__", "__defineSetter__", "__lookupGetter__", "__lookupSetter__"
  }

  /** Where a property read on the propagator table finds `format`. */
  datatype Lookup = Own | Inherited | Absent

  /** Whether a call returned normally (with its value) or threw. */
  datatype Outcome<T> = Returned(value: T) | Threw

  /** The property read `this._propagators[format]`, classified. */
  function LookupAsWritten(table: map<string, Propagator>, format: string): (r: Lookup)
    ensures r == Own <==> format in table
    ensures r == Inherited <==> format !in table && format in InheritedNames
    ensures r == Absent ==> format !in table && format !in InheritedNames
  {
    if format in table then Own
    else if format in InheritedNames then Inherited
    else Absent
  }

  /**
   inject(span, format, carrier) as written: an inherited name passes the guard, the
   span is sampled, and then `propagator.inject` is not a function. Everywhere else it
   agrees with the corrected `Steps.Inject`.
   */
  function InjectAsWritten(s: Steps.State, table: map<string, Propagator>, format: string,
                           span: Span, carrier: Fields): (r: (Steps.State, Outcome<Fields>))
    ensures LookupAsWritten(table, format) != Inherited ==>
      r == (Steps.Inject(s, table, format, span, carrier).0,
            Returned(Steps.Inject(s, table, format, span, carrier).1))
    ensures LookupAsWritten(table, format) == Inherited ==>
      r.1 == Threw && r.0 == s.(log := s.log + [Steps.Sampled(span)])
  {
    match LookupAsWritten(table, format)
    case Absent => (s, Returned(carrier))
    case Inherited => (s.(log := s.log + [Steps.Sampled(span)]), Threw)
    case Own =>
      (s.(log := s.log + [Steps.Sampled(span), Steps.Injected(format, span)]),
       Returned(table[format].inject(span, carrier)))
  }

  /**
   extract(format, carrier) as written: an inherited name passes the guard and then
   `propagator.extract` is not a function. Everywhere else it agrees with `Steps.Extract`.
   */
  function ExtractAsWritten(table: map<string, Propagator>, format: string, carrier: Fields)
    : (r: Outcome<Option<SpanContext>>)
    ensures r == Threw <==> LookupAsWritten(table, format) == Inherited
    ensures r.Returned? ==> r.value == Steps.Extract(table, format, carrier)
  {
    match LookupAsWritten(table, format)
    case Absent => Returned(None)
    case Inherited => Threw
    case Own => Returned(table[format].extract(carrier))
  }

  /**
   With the tracer's own table, inject(span, "toString", carrier) samples the span and
   throws, where the corrected inject leaves the tracer and the carrier untouched;
   extract("toString") throws where the corrected extract returns None.
   */
  lemma ToStringSamplesThenThrows(s: Steps.State, textMap: Propagator, logPropagator: Propagator,
                                  span: Span, carrier: Fields)
    ensures var table := map["text_map" := textMap, "log" := logPropagator];
      && InjectAsWritten(s, table, "toString", span, carrier).1 == Threw
      && InjectAsWritten(s, table, "toString", span, carrier).0.log == s.log + [Steps.Sampled(span)]
      && Steps.Inject(s, table, "toString", span, carrier) == (s, carrier)
      && ExtractAsWritten(table, "toString", carrier) == Threw
      && Steps.Extract(table, "toString", carrier) == None
  {
    var table := map["text_map" := textMap, "log" := logPropagator];
    assert "toString" !in table;
    assert "toString" in InheritedNames;
  }

  /** The two lookups differ exactly on inherited names the table does not own. */
  lemma DiffersOnlyOnInheritedNames(s: Steps.State, table: map<string, Propagator>, format: string,
                                    span: Span, carrier: Fields)
    ensures InjectAsWritten(s, table, format, span, carrier).1 == Threw
      <==> format !in table && format in InheritedNames
    ensures format !in table && format in InheritedNames ==>
      InjectAsWritten(s, table, format, span, carrier).0 != Steps.Inject(s, table, format, span, carrier).0
  {
    if format !in table && format in InheritedNames {
      var r := InjectAsWritten(s, table, format, span, carrier).0;
      assert |r.log| == |s.log| + 1;
    }
  }
}
