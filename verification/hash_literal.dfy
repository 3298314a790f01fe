/** Ruby hash literals `{ "Key": expr, ... }` as the request bodies are written: entries are
    evaluated left to right, a name that resolves to nothing raises NameError, and a later
    duplicate key overwrites an earlier one. */
module HashLiteral {
  import opened Wrappers
  import opened Json

  /** A value expression: a value, or a name that is neither a local variable nor a method. */
  datatype Expr = Value(v: JsonValue) | Undefined(name: string)

  datatype Entry = Entry(key: string, expr: Expr)

  /** The exception evaluating a literal can raise. */
  datatype RaisedError = NameError(name: string)

  predicate Defined(entries: seq<Entry>)
  {
    forall i :: 0 <= i < |entries| ==> entries[i].expr.Value?
  }

  /** The literal's keys, in the order written. */
  function EntryKeys(entries: seq<Entry>): (ks: seq<string>)
    ensures |ks| == |entries| && forall i :: 0 <= i < |entries| ==> ks[i] == entries[i].key
  {
    seq(|entries|, i requires 0 <= i < |entries| => entries[i].key)
  }

  /** No key is written twice. */
  predicate DistinctKeys(entries: seq<Entry>)
  {
    Distinct(EntryKeys(entries))
  }

  /** Distinct keys stay distinct without the last entry, whose key is then new. */
  lemma DistinctKeysInit(entries: seq<Entry>)
    requires |entries| > 0
    ensures DistinctKeys(entries) ==>
      var init := entries[..|entries| - 1];
      DistinctKeys(init) && forall i :: 0 <= i < |init| ==> init[i].key != entries[|entries| - 1].key
  {
    var ks, ks' := EntryKeys(entries), EntryKeys(entries[..|entries| - 1]);
    assert forall i :: 0 <= i < |ks'| ==> ks'[i] == ks[i];
  }

  /** Setting the last entry's key in a hash that maps every earlier key to its value maps
      every key of the literal to its value, provided no key is written twice. */
  lemma AssignDistinct(entries: seq<Entry>, m: Object, v: JsonValue)
    requires |entries| > 0 && entries[|entries| - 1].expr == Value(v)
    requires var init := entries[..|entries| - 1];
      Defined(init) && DistinctKeys(init) ==>
      forall i :: 0 <= i < |init| ==> init[i].key in m && m[init[i].key] == init[i].expr.v
    ensures Defined(entries) && DistinctKeys(entries) ==>
      var m' := m[entries[|entries| - 1].key := v];
      forall i :: 0 <= i < |entries| ==> m'[entries[i].key] == entries[i].expr.v
  {
    DistinctKeysInit(entries);
  }

  /** Builds the hash. It succeeds exactly when every expression is defined, and then holds
      exactly the written keys with their values; otherwise it raises on the leftmost
      undefined name. */
  function Evaluate(entries: seq<Entry>): (r: Result<Object, RaisedError>)
    ensures r.Ok? <==> Defined(entries)
    ensures r.Ok? ==> r.value.Keys == set i | 0 <= i < |entries| :: entries[i].key
    ensures r.Ok? && DistinctKeys(entries) ==>
      forall i :: 0 <= i < |entries| ==> r.value[entries[i].key] == entries[i].expr.v
    ensures r.Raised? ==>
      exists i :: 0 <= i < |entries| && Defined(entries[..i]) && entries[i].expr == Undefined(r.error.name)
  {
    if |entries| == 0 then Ok(map[])
    else
      var init := entries[..|entries| - 1];
      var last := entries[|entries| - 1];
      match Evaluate(init)
      case Raised(e) =>
        assert forall i :: 0 <= i < |init| ==> init[..i] == entries[..i];
        Raised(e)
      case Ok(m) =>
        match last.expr
        case Undefined(n) =>
          assert init == entries[..|entries| - 1];
          Raised(NameError(n))
        case Value(v) =>
          assert forall i :: 0 <= i < |init| ==> init[i] == entries[i];
          AssignDistinct(entries, m, v);
          Ok(m[last.key := v])
  }

  /** The exception names the leftmost undefined expression: once every entry before `k` is
      defined and entry `k` is not, evaluation raises NameError on entry `k`'s name, whatever
      follows it. */
  lemma RaisesLeftmost(entries: seq<Entry>, k: nat)
    requires k < |entries| && Defined(entries[..k]) && entries[k].expr.Undefined?
    ensures Evaluate(entries) == Raised(NameError(entries[k].expr.name))
  {
    var r := Evaluate(entries);
    assert entries[k].expr.Undefined?;
    var i :| 0 <= i < |entries| && Defined(entries[..i]) && entries[i].expr == Undefined(r.error.name);
    assert forall j :: 0 <= j < k ==> entries[..k][j] == entries[j];
    assert forall j :: 0 <= j < i ==> entries[..i][j] == entries[j];
  }

  /** The hash a literal builds from its defined entries, left to right, a later key
      overwriting an earlier one. */
  function Assign(entries: seq<Entry>): Object
  {
    if |entries| == 0 then map[]
    else
      var m := Assign(entries[..|entries| - 1]);
      var last := entries[|entries| - 1];
      if last.expr.Value? then m[last.key := last.expr.v] else m
  }

  /** A literal whose expressions are all defined builds the hash of its assignments. */
  lemma {:induction false} EvaluateDefined(entries: seq<Entry>)
    requires Defined(entries)
    ensures Evaluate(entries) == Ok(Assign(entries))
  {
    if |entries| > 0 {
      var init := entries[..|entries| - 1];
      assert forall i :: 0 <= i < |init| ==> init[i] == entries[i];
      EvaluateDefined(init);
    }
  }

  /** One more entry of a literal: its key gains its value. */
  lemma AssignStep(entries: seq<Entry>, k: nat)
    requires k < |entries| && entries[k].expr.Value?
    ensures Assign(entries[..k + 1]) == Assign(entries[..k])[entries[k].key := entries[k].expr.v]
  {
    assert entries[..k + 1][..k] == entries[..k];
  }
}
