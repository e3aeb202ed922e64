/**
 * `Util.mergeDefault(def, given)`: fills in the options of a configuration
 * object that are missing or `undefined` from a tree of defaults, descending
 * into nested option objects, and hands back the caller's object itself.
 *
 * JavaScript values are modelled as `undefined`, a primitive, or a plain
 * object (a map from property names to values). The nested objects are
 * values; the top-level object the caller passes is a `ConfigObject` whose
 * property map is updated in place.
 */
module Defaults {

  datatype Primitive = Null | Bool(b: bool) | Number(n: int) | Str(s: string)

  datatype Value = Undefined | Prim(p: Primitive) | Obj(props: map<string, Value>)

  /** The falsy values of JavaScript among those modelled (`NaN` and `-0` are not). */
  const Falsy: set<Value> := {Undefined, Prim(Null), Prim(Bool(false)), Prim(Number(0)), Prim(Str(""))}

  /** JavaScript truthiness, case by case over the kinds of value. */
  predicate Truthy(v: Value): (r: bool)
    ensures r <==> v !in Falsy
  {
    match v
    case Undefined => false
    case Prim(Null) => false
    case Prim(Bool(b)) => b
    case Prim(Number(n)) => n != 0
    case Prim(Str(s)) => s != ""
    case Obj(_) => true
  }

  /** The keys `for (const key in def)` visits: an object's own properties, none for anything else. */
  function DefaultKeys(def: Value): (keys: set<string>)
    ensures def.Obj? ==> keys == def.props.Keys
  {
    if def.Obj? then def.props.Keys else {}
  }

  /** What `mergeDefault` accepts as `given`: an object, or a falsy value. */
  predicate MergeableTarget(given: Value)
  {
    given.Obj? || !Truthy(given)
  }

  /**
   * The property `key` after the merge, from the default `d` for it and the
   * object's properties `given` before the merge: the default when the key
   * is missing or `undefined`, the recursive merge when it holds an object,
   * and the given value otherwise.
   */
  function MergedProperty(d: Value, given: map<string, Value>, key: string): (v: Value)
    decreases d, 1
  {
    if key !in given || given[key] == Undefined then d
    else if given[key].Obj? then Obj(MergeProps(d, given[key].props))
    else given[key]
  }

  /** The property map of `given` after `mergeDefault(def, given)`. */
  function MergeProps(def: Value, given: map<string, Value>): (r: map<string, Value>)
    ensures r.Keys == given.Keys + DefaultKeys(def)
    ensures forall key :: key in given && key !in DefaultKeys(def) ==> r[key] == given[key]
    ensures forall key :: key in DefaultKeys(def) && (key !in given || given[key] == Undefined) ==>
      r[key] == def.props[key]
    ensures forall key :: key in given && given[key].Prim? ==> r[key] == given[key]
    ensures forall key :: key in DefaultKeys(def) && key in given && given[key].Obj? ==>
      r[key] == Obj(MergeProps(def.props[key], given[key].props))
    decreases def, 0
  {
    map key | key in given.Keys + DefaultKeys(def) ::
      if key in DefaultKeys(def) then MergedProperty(def.props[key], given, key) else given[key]
  }

  /** `mergeDefault(def, given)` as a value. */
  function MergeDefault(def: Value, given: Value): (r: Value)
    requires MergeableTarget(given)
    ensures !Truthy(given) ==> r == def
    ensures given.Obj? ==> r.Obj? && r.props.Keys == given.props.Keys + DefaultKeys(def)
    ensures given.Obj? ==> r == Obj(MergeProps(def, given.props))
  {
    if !Truthy(given) then def else Obj(MergeProps(def, given.props))
  }

  /**
   * Merging a default tree into a copy of itself changes nothing: every key
   * is already set, and object-valued ones hold their own defaults.
   */
  lemma {:induction false} MergeIntoSelf(def: map<string, Value>)
    ensures MergeProps(Obj(def), def) == def
    decreases Obj(def)
  {
    forall key | key in def ensures MergeProps(Obj(def), def)[key] == def[key] {
      if def[key].Obj? {
        MergeIntoSelf(def[key].props);
      }
    }
  }

  /** Merging the same defaults twice gives what merging once gave. */
  lemma {:induction false} MergeIdempotent(def: Value, given: map<string, Value>)
    ensures MergeProps(def, MergeProps(def, given)) == MergeProps(def, given)
    decreases def
  {
    var once := MergeProps(def, given);
    forall key | key in once ensures MergeProps(def, once)[key] == once[key] {
      if key in DefaultKeys(def) {
        var d := def.props[key];
        assert MergeProps(def, once)[key] == MergedProperty(d, once, key);
        assert once[key] == MergedProperty(d, given, key);
        if key !in given || given[key] == Undefined {
          assert once[key] == d;
          if d.Obj? {
            MergeIntoSelf(d.props);
          }
        } else if given[key].Obj? {
          assert once[key] == Obj(MergeProps(d, given[key].props));
          MergeIdempotent(d, given[key].props);
        }
      }
    }
  }

  /**
   * After the merge no property that has a default is left `undefined`
   * unless its default is, and nothing the caller set to a primitive is lost.
   */
  lemma {:induction false} MergeFillsDefaults(def: Value, given: map<string, Value>)
    ensures forall key :: key in DefaultKeys(def) ==>
      (MergeProps(def, given)[key] == Undefined <==> def.props[key] == Undefined && (key !in given || given[key] == Undefined))
  {
  }

  /** The caller's configuration object, whose properties `mergeDefault` assigns. */
  class ConfigObject {
    var props: map<string, Value>

    constructor (props: map<string, Value>)
      ensures this.props == props
    {
      this.props := props;
    }

    /**
     * `mergeDefault(def, this)` for an object `given`: visits every key of
     * `def` once, assigns the default where the property is missing or
     * `undefined`, replaces an object-valued property by its merge with the
     * matching default, and returns this same object.
     */
    method MergeDefault(def: Value) returns (r: ConfigObject)
      modifies this
      ensures r == this
      ensures props == MergeProps(def, old(props))
    {
      var todo := DefaultKeys(def);
      while todo != {}
        invariant todo <= DefaultKeys(def)
        invariant props.Keys == old(props).Keys + (DefaultKeys(def) - todo)
        invariant forall key :: key in props ==>
          props[key] == if key in DefaultKeys(def) - todo then MergedProperty(def.props[key], old(props), key) else old(props)[key]
        decreases todo
      {
        var key :| key in todo;
        assert key in props ==> props[key] == old(props)[key];
        if key !in props || props[key] == Undefined {
          props := props[key := def.props[key]];
        } else if props[key].Obj? {
          props := props[key := Obj(MergeProps(def.props[key], props[key].props))];
        }
        todo := todo - {key};
      }
      assert props.Keys == MergeProps(def, old(props)).Keys;
      r := this;
    }
  }
}
