/**
 * `jsonload_list2tuple` of latencycontroller.py: the cached alternate-path
 * matrix is read back from JSON, where tuples came out as lists; every list
 * (and tuple) is turned into a tuple, recursively, and dict keys and values are
 * converted the same way.
 */
module PyJson {
  import opened Wrappers
  import opened Dict

  /** The Python values the conversion distinguishes; `Other` stands for any other type. */
  datatype PyValue =
    | PNone
    | PInt(i: int)
    | PFloat(f: real)
    | PStr(s: string)
    | PList(items: seq<PyValue>)
    | PTuple(items: seq<PyValue>)
    | PDict(entries: seq<(PyValue, PyValue)>)
    | Other

  /** The values `jsonload_list2tuple` accepts: no value of another type anywhere inside. */
  predicate IsJson(x: PyValue)
  {
    match x
    case Other => false
    case PList(items) => forall i | 0 <= i < |items| :: IsJson(items[i])
    case PTuple(items) => forall i | 0 <= i < |items| :: IsJson(items[i])
    case PDict(es) => forall i | 0 <= i < |es| :: IsJson(es[i].0) && IsJson(es[i].1)
    case _ => true
  }

  /** No list anywhere inside: every sequence is a tuple. */
  predicate Tupled(x: PyValue)
  {
    match x
    case Other => true
    case PList(_) => false
    case PTuple(items) => forall i | 0 <= i < |items| :: Tupled(items[i])
    case PDict(es) => forall i | 0 <= i < |es| :: Tupled(es[i].0) && Tupled(es[i].1)
    case _ => true
  }

  /** Every conversion succeeded. */
  predicate AllOk(rs: seq<Result<PyValue>>)
  {
    forall i | 0 <= i < |rs| :: rs[i].Ok?
  }

  function Values(rs: seq<Result<PyValue>>): (r: seq<PyValue>)
    requires AllOk(rs)
    ensures |r| == |rs| && forall i | 0 <= i < |rs| :: r[i] == rs[i].value
  {
    seq(|rs|, i requires 0 <= i < |rs| => rs[i].value)
  }

  /** `jsonload_list2tuple(x)`. */
  function ListToTuple(x: PyValue): Result<PyValue>
  {
    match x
    case Other => Err(ValueError)
    case PList(items) => TupleOf(seq(|items|, i requires 0 <= i < |items| => ListToTuple(items[i])))
    case PTuple(items) => TupleOf(seq(|items|, i requires 0 <= i < |items| => ListToTuple(items[i])))
    case PDict(es) =>
      DictOf(seq(|es|, i requires 0 <= i < |es| => ListToTuple(es[i].0)),
             seq(|es|, i requires 0 <= i < |es| => ListToTuple(es[i].1)))
    case _ => Ok(x)
  }

  /** `tuple([...])` of the converted items; any failure propagates as `ValueError`. */
  function TupleOf(rs: seq<Result<PyValue>>): (r: Result<PyValue>)
    ensures r.Ok? <==> AllOk(rs)
    ensures r.Err? ==> r.error == ValueError
  {
    if AllOk(rs) then Ok(PTuple(Values(rs))) else Err(ValueError)
  }

  /**
   * The dict comprehension over converted keys and values: two keys that
   * convert to the same value merge, the later value winning at the earlier
   * position.
   */
  function DictOf(ks: seq<Result<PyValue>>, vs: seq<Result<PyValue>>): (r: Result<PyValue>)
    requires |ks| == |vs|
    ensures r.Ok? <==> AllOk(ks) && AllOk(vs)
    ensures r.Err? ==> r.error == ValueError
  {
    if AllOk(ks) && AllOk(vs) then Ok(PDict(Items(FromItems(Zip(Values(ks), Values(vs)))))) else Err(ValueError)
  }

  function Zip(ks: seq<PyValue>, vs: seq<PyValue>): (r: seq<(PyValue, PyValue)>)
    requires |ks| == |vs|
    ensures |r| == |ks| && forall i | 0 <= i < |ks| :: r[i] == (ks[i], vs[i])
  {
    seq(|ks|, i requires 0 <= i < |ks| => (ks[i], vs[i]))
  }

  /** The conversion succeeds exactly on values `json.loads` can produce; otherwise it raises `ValueError`. */
  lemma {:induction false} OkIffJson(x: PyValue)
    ensures ListToTuple(x).Ok? <==> IsJson(x)
    ensures ListToTuple(x).Err? ==> ListToTuple(x).error == ValueError
    decreases x
  {
    match x
    case PList(items) =>
      var rs := seq(|items|, i requires 0 <= i < |items| => ListToTuple(items[i]));
      forall i | 0 <= i < |items| ensures rs[i].Ok? <==> IsJson(items[i]) { OkIffJson(items[i]); }
      assert ListToTuple(x) == TupleOf(rs);
    case PTuple(items) =>
      var rs := seq(|items|, i requires 0 <= i < |items| => ListToTuple(items[i]));
      forall i | 0 <= i < |items| ensures rs[i].Ok? <==> IsJson(items[i]) { OkIffJson(items[i]); }
      assert ListToTuple(x) == TupleOf(rs);
    case PDict(es) =>
      var ks := seq(|es|, i requires 0 <= i < |es| => ListToTuple(es[i].0));
      var vs := seq(|es|, i requires 0 <= i < |es| => ListToTuple(es[i].1));
      forall i | 0 <= i < |es|
        ensures (ks[i].Ok? <==> IsJson(es[i].0)) && (vs[i].Ok? <==> IsJson(es[i].1))
      {
        OkIffJson(es[i].0);
        OkIffJson(es[i].1);
      }
    case _ =>
  }

  /** Each entry of the rebuilt dict is one of the converted pairs. */
  lemma DictEntriesFrom(items: seq<(PyValue, PyValue)>, j: nat)
    requires j < |Items(FromItems(items))|
    ensures exists i :: 0 <= i < |items| && items[i] == Items(FromItems(items))[j]
  {
    FromItemsValue(items, FromItems(items).order[j]);
  }

  /** A converted value holds no list and is itself a JSON-like value. */
  lemma {:induction false} ResultTupled(x: PyValue)
    requires IsJson(x)
    ensures ListToTuple(x).Ok? && Tupled(ListToTuple(x).value) && IsJson(ListToTuple(x).value)
    decreases x
  {
    OkIffJson(x);
    match x
    case PList(items) =>
      forall i | 0 <= i < |items|
        ensures ListToTuple(items[i]).Ok? && Tupled(ListToTuple(items[i]).value) && IsJson(ListToTuple(items[i]).value)
      {
        ResultTupled(items[i]);
      }
    case PTuple(items) =>
      forall i | 0 <= i < |items|
        ensures ListToTuple(items[i]).Ok? && Tupled(ListToTuple(items[i]).value) && IsJson(ListToTuple(items[i]).value)
      {
        ResultTupled(items[i]);
      }
    case PDict(es) =>
      var ks := seq(|es|, i requires 0 <= i < |es| => ListToTuple(es[i].0));
      var vs := seq(|es|, i requires 0 <= i < |es| => ListToTuple(es[i].1));
      forall i | 0 <= i < |es| ensures ks[i].Ok? && vs[i].Ok? {
        OkIffJson(es[i].0);
        OkIffJson(es[i].1);
      }
      var items := Zip(Values(ks), Values(vs));
      var out := Items(FromItems(items));
      forall j | 0 <= j < |out|
        ensures Tupled(out[j].0) && Tupled(out[j].1) && IsJson(out[j].0) && IsJson(out[j].1)
      {
        DictEntriesFrom(items, j);
        var i :| 0 <= i < |items| && items[i] == out[j];
        ResultTupled(es[i].0);
        ResultTupled(es[i].1);
      }
    case _ =>
  }

  /** Scalars are returned as they are. */
  lemma ScalarsKept(x: PyValue)
    requires x.PNone? || x.PInt? || x.PFloat? || x.PStr?
    ensures ListToTuple(x) == Ok(x)
  {
  }

  /** A list converts to a tuple of its items, each converted. */
  lemma {:induction false} ListItemsConverted(items: seq<PyValue>, i: nat)
    requires IsJson(PList(items)) && i < |items|
    ensures ListToTuple(PList(items)).Ok? && ListToTuple(PList(items)).value.PTuple?
    ensures |ListToTuple(PList(items)).value.items| == |items|
    ensures ListToTuple(items[i]).Ok? && ListToTuple(PList(items)).value.items[i] == ListToTuple(items[i]).value
    ensures ListToTuple(PList(items)) == ListToTuple(PTuple(items))
  {
    OkIffJson(PList(items));
    OkIffJson(items[i]);
  }

  /** Converting a converted value gives it back: the conversion is idempotent. */
  lemma {:induction false} Idempotent(x: PyValue)
    requires IsJson(x)
    ensures ListToTuple(x).Ok? && ListToTuple(ListToTuple(x).value) == ListToTuple(x)
    decreases x
  {
    OkIffJson(x);
    match x
    case PList(items) => IdempotentItems(x, items);
    case PTuple(items) => IdempotentItems(x, items);
    case PDict(es) => IdempotentDict(x, es);
    case _ =>
  }

  lemma {:induction false} IdempotentItems(x: PyValue, items: seq<PyValue>)
    requires (x.PList? || x.PTuple?) && items == x.items && IsJson(x)
    ensures ListToTuple(x).Ok? && ListToTuple(ListToTuple(x).value) == ListToTuple(x)
    decreases x, 0
  {
    OkIffJson(x);
    var rs := seq(|items|, i requires 0 <= i < |items| => ListToTuple(items[i]));
    assert ListToTuple(x) == TupleOf(rs);
    var ys := Values(rs);
    var rs' := seq(|ys|, i requires 0 <= i < |ys| => ListToTuple(ys[i]));
    assert ListToTuple(PTuple(ys)) == TupleOf(rs');
    forall i | 0 <= i < |ys| ensures rs'[i] == Ok(ys[i]) {
      Idempotent(items[i]);
    }
    assert Values(rs') == ys;
  }

  lemma {:induction false} IdempotentDict(x: PyValue, es: seq<(PyValue, PyValue)>)
    requires x == PDict(es) && IsJson(x)
    ensures ListToTuple(x).Ok? && ListToTuple(ListToTuple(x).value) == ListToTuple(x)
    decreases x, 0
  {
    OkIffJson(x);
    var ks := seq(|es|, i requires 0 <= i < |es| => ListToTuple(es[i].0));
    var vs := seq(|es|, i requires 0 <= i < |es| => ListToTuple(es[i].1));
    assert ListToTuple(x) == DictOf(ks, vs);
    var items := Zip(Values(ks), Values(vs));
    var d := FromItems(items);
    forall j | 0 <= j < |Items(d)|
      ensures ListToTuple(Items(d)[j].0) == Ok(Items(d)[j].0) && ListToTuple(Items(d)[j].1) == Ok(Items(d)[j].1)
    {
      DictEntriesFrom(items, j);
      var i :| 0 <= i < |items| && items[i] == Items(d)[j];
      Idempotent(es[i].0);
      Idempotent(es[i].1);
    }
    FixedEntries(d);
  }

  /** The entries of a dict whose keys and values convert to themselves convert to the same dict. */
  lemma FixedEntries(d: Dict<PyValue, PyValue>)
    requires forall j | 0 <= j < |Items(d)| ::
      ListToTuple(Items(d)[j].0) == Ok(Items(d)[j].0) && ListToTuple(Items(d)[j].1) == Ok(Items(d)[j].1)
    ensures ListToTuple(PDict(Items(d))) == Ok(PDict(Items(d)))
  {
    var out := Items(d);
    var ks := seq(|out|, j requires 0 <= j < |out| => ListToTuple(out[j].0));
    var vs := seq(|out|, j requires 0 <= j < |out| => ListToTuple(out[j].1));
    assert ListToTuple(PDict(out)) == DictOf(ks, vs);
    assert Zip(Values(ks), Values(vs)) == out;
    FromItemsOfItems(d);
  }
}
