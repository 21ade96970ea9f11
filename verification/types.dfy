/** Field types as the flattener sees them, in place of Python type hints
    and Pydantic reflection, and the two classifications the flattener
    applies to them: `unwrap_optional_and_list` and `is_primitive_type`. */
module Types {

  datatype PrimKind = Str | Int | Float | Bool

  /** A type hint. `Union(args)` is `typing.Union` (so `Optional[X]` is
      `Union([X, NoneT])`), `ListOf(e)` is `List[e]`, `BareList` is the
      unsubscripted `typing.List`, `Model(name)` a Pydantic model class and
      `Opaque` any other class (`datetime`, a FHIR primitive type, ...).
      Unions are taken as written: `typing` collapses `Union[X]` to `X`,
      flattens a union inside a union and drops repeated arguments, so
      `Union([X])`, nested unions, a union of `None` alone and a union with
      a repeated argument (`Union[str, str, None]` is `Optional[str]`)
      stand for no real hint. The PEP 604 form
      `X | None` is not a `typing.Union` before Python 3.14; the code does
      not unwrap it, and here it is an `Opaque` class. */
  datatype Ty =
    | Prim(kind: PrimKind)
    | NoneT
    | Model(name: string)
    | Union(args: seq<Ty>)
    | ListOf(elem: Ty)
    | BareList
    | Opaque(name: string)

  /** The triple `(is_optional, is_list, inner_type)`. */
  datatype Unwrapped = Unwrapped(isOptional: bool, isList: bool, inner: Ty)

  /** Structural size; unwrapping terminates on it. */
  function Size(t: Ty): nat
  {
    match t
    case Union(args) => 1 + SizeAll(args)
    case ListOf(e) => 1 + Size(e)
    case _ => 1
  }

  function SizeAll(ts: seq<Ty>): nat
  {
    if |ts| == 0 then 0 else Size(ts[0]) + SizeAll(ts[1..])
  }

  /** The arguments of a union other than `None`, in order
      (`[arg for arg in args if arg != type(None)]`). */
  function NonNone(args: seq<Ty>): (r: seq<Ty>)
    ensures forall x :: x in r <==> x in args && x != NoneT
    ensures SizeAll(r) <= SizeAll(args)
    ensures |r| > 0 ==>
              exists k :: 0 <= k < |args| && args[k] == r[0] && forall j :: 0 <= j < k ==> args[j] == NoneT
    ensures forall x :: x != NoneT ==> multiset(r)[x] == multiset(args)[x]
    ensures |r| == |args| - multiset(args)[NoneT]
  {
    if |args| == 0 then []
    else if args[0] == NoneT then
      var rest := NonNone(args[1..]);
      assert |rest| > 0 ==>
               exists k :: 0 <= k < |args| && args[k] == rest[0] && forall j :: 0 <= j < k ==> args[j] == NoneT
      by {
        if |rest| > 0 {
          var k :| 0 <= k < |args[1..]| && args[1..][k] == rest[0] &&
                   forall j :: 0 <= j < k ==> args[1..][j] == NoneT;
          assert args[k + 1] == rest[0];
          forall j | 0 <= j < k + 1
            ensures args[j] == NoneT
          {
            if j > 0 {
              assert args[j] == args[1..][j - 1];
            }
          }
        }
      }
      NonNoneCons(args, rest);
      rest
    else
      var r := [args[0]] + NonNone(args[1..]);
      assert args[0] == r[0];
      NonNoneCons(args, NonNone(args[1..]));
      r
  }

  /** The multiplicity step of `NonNone`: dropping a leading `None`, or
      keeping any other leading argument, keeps the count of every other
      argument. */
  lemma NonNoneCons(args: seq<Ty>, rest: seq<Ty>)
    requires |args| > 0
    requires forall x :: x != NoneT ==> multiset(rest)[x] == multiset(args[1..])[x]
    requires |rest| == |args[1..]| - multiset(args[1..])[NoneT]
    ensures var r := if args[0] == NoneT then rest else [args[0]] + rest;
            (forall x :: x != NoneT ==> multiset(r)[x] == multiset(args)[x]) &&
            |r| == |args| - multiset(args)[NoneT]
  {
    assert args == [args[0]] + args[1..];
  }

  /** Every member of a union is smaller than the union. */
  lemma {:induction false} MemberSize(ts: seq<Ty>, i: nat)
    requires i < |ts|
    ensures Size(ts[i]) <= SizeAll(ts)
  {
    if i > 0 {
      MemberSize(ts[1..], i - 1);
    }
  }

  /** The first argument of a union other than `None` is smaller than the
      union. */
  lemma FirstNonNoneSize(t: Ty)
    requires t.Union? && |NonNone(t.args)| > 0
    ensures Size(NonNone(t.args)[0]) < Size(t)
  {
    MemberSize(NonNone(t.args), 0);
  }

  /** `typing.Optional[X]`: a union with exactly one argument other than
      `None`. */
  predicate IsOptionalLayer(t: Ty)
  {
    t.Union? && |NonNone(t.args)| == 1
  }

  /** `unwrap_optional_and_list`. A union with exactly one argument other
      than `None` is optional and that argument is unwrapped in turn (its
      own optional flag is dropped); a union with several such arguments
      gives way to its first; a list, reached at the top or after the
      union step, sets `is_list` and its element is unwrapped in turn (its
      optional flag is dropped as well). */
  function Unwrap(t: Ty): (u: Unwrapped)
    ensures Size(u.inner) <= Size(t)
    ensures !u.inner.ListOf?
    ensures u.inner.BareList? ==> u.isList
    ensures u.isOptional <==> IsOptionalLayer(t)
    ensures !t.Union? && !t.ListOf? && !t.BareList? ==> u == Unwrapped(false, false, t)
    ensures t.ListOf? || t.BareList? ==> u.isList && !u.isOptional
    ensures t.Union? && |NonNone(t.args)| >= 2 ==>
              (u.isList <==> NonNone(t.args)[0].ListOf? || NonNone(t.args)[0].BareList?)
    ensures t.Union? && |NonNone(t.args)| >= 2 && !NonNone(t.args)[0].ListOf? ==>
              u.inner == NonNone(t.args)[0]
    ensures IsOptionalLayer(t) && (NonNone(t.args)[0].ListOf? || NonNone(t.args)[0].BareList?) ==> u.isList
    ensures t.Union? && |NonNone(t.args)| == 0 ==> u == Unwrapped(false, false, t)
    ensures t.BareList? ==> u == Unwrapped(false, true, BareList)
    decreases Size(t), 1
  {
    var first := UnionStep(t);
    match first.inner
    case ListOf(e) => Unwrapped(first.isOptional, true, Unwrap(e).inner)
    case BareList => Unwrapped(first.isOptional, true, BareList)
    case _ => first
  }

  /** The `origin is Union` step of `unwrap_optional_and_list`. */
  function UnionStep(t: Ty): (u: Unwrapped)
    ensures Size(u.inner) <= Size(t)
    ensures u.isOptional <==> IsOptionalLayer(t)
    ensures u.isOptional ==> !u.inner.ListOf? && (u.inner.BareList? ==> u.isList)
    decreases Size(t), 0
  {
    if t.Union? then
      var nn := NonNone(t.args);
      if |nn| == 1 then
        FirstNonNoneSize(t);
        var u := Unwrap(nn[0]);
        Unwrapped(true, u.isList, u.inner)
      else if |nn| > 0 then
        FirstNonNoneSize(t);
        Unwrapped(false, false, nn[0])
      else Unwrapped(false, false, t)
    else Unwrapped(false, false, t)
  }

  /** The recursive steps of `unwrap_optional_and_list`: an `Optional`
      layer takes the list flag and the inner type of its argument, and a
      list, at the top or as the first argument of a wider union, takes the
      inner type of its element. */
  lemma UnwrapLayers(t: Ty)
    ensures IsOptionalLayer(t) ==>
              var a := Unwrap(NonNone(t.args)[0]);
              Unwrap(t) == Unwrapped(true, a.isList, a.inner)
    ensures t.ListOf? ==> Unwrap(t) == Unwrapped(false, true, Unwrap(t.elem).inner)
    ensures t.Union? && |NonNone(t.args)| >= 2 && NonNone(t.args)[0].ListOf? ==>
              Unwrap(t) == Unwrapped(false, true, Unwrap(NonNone(t.args)[0].elem).inner)
  {
  }

  /** `Optional[X]` has `X` as its only argument other than `None`. */
  lemma NonNoneOptional(x: Ty)
    requires x != NoneT
    ensures NonNone([x, NoneT]) == [x]
  {
    assert [x, NoneT][1..] == [NoneT];
    assert [NoneT][1..] == [];
  }

  /** `Union[str, int]` gives way to `str`. */
  lemma StrOrInt()
    ensures Unwrap(Union([Prim(Str), Prim(Int)])) == Unwrapped(false, false, Prim(Str))
  {
    var args := [Prim(Str), Prim(Int)];
    assert args[1..] == [Prim(Int)];
    assert [Prim(Int)][1..] == [];
    assert NonNone(args) == args;
  }

  /** `Optional[List[Union[str, int]]]` is optional and a list, and its
      items' type is the first argument of the element union. */
  lemma OptionalListOfWideUnion()
    ensures Unwrap(Union([ListOf(Union([Prim(Str), Prim(Int)])), NoneT])) == Unwrapped(true, true, Prim(Str))
  {
    var list := ListOf(Union([Prim(Str), Prim(Int)]));
    StrOrInt();
    UnwrapLayers(list);
    NonNoneOptional(list);
    UnwrapLayers(Union([list, NoneT]));
  }

  /** `is_primitive_type`: `str`, `int`, `float`, `bool` and `None`, and a
      union all of whose members are primitive. */
  predicate IsPrimitive(t: Ty)
    decreases t
  {
    match t
    case Prim(_) => true
    case NoneT => true
    case Union(args) => forall a | a in args :: IsPrimitive(a)
    case _ => false
  }

  /** Unwrapping a primitive type never finds a list and leaves a primitive
      inner type. */
  lemma {:induction false} UnwrapPrimitive(t: Ty)
    requires IsPrimitive(t)
    ensures !Unwrap(t).isList && IsPrimitive(Unwrap(t).inner)
    decreases Size(t)
  {
    if t.Union? {
      var nn := NonNone(t.args);
      if |nn| > 0 {
        assert nn[0] in t.args;
        FirstNonNoneSize(t);
        if |nn| == 1 {
          UnwrapPrimitive(nn[0]);
        }
      }
    }
  }

  /** The reading of the wrappers that treats nested `Optional` and `List`
      layers as flags to merge: optional when any layer is optional, a
      list when any layer is a list, and the inner type the first type
      that is neither. */
  datatype Layers = Layers(anyOptional: bool, anyList: bool, base: Ty)

  function MergedLayers(t: Ty): Layers
    decreases Size(t)
  {
    if IsOptionalLayer(t) then
      FirstNonNoneSize(t);
      var l := MergedLayers(NonNone(t.args)[0]);
      Layers(true, l.anyList, l.base)
    else if t.ListOf? then
      var l := MergedLayers(t.elem);
      Layers(l.anyOptional, true, l.base)
    else if t.BareList? then Layers(false, true, t)
    else Layers(false, false, t)
  }

  /** A type built only from `Optional[...]` and `List[...]` layers around
      a type that is neither a union nor a parameterised list. */
  ghost predicate SimpleWrapping(t: Ty)
    decreases Size(t)
  {
    if t.Union? then
      IsOptionalLayer(t) && (FirstNonNoneSize(t); SimpleWrapping(NonNone(t.args)[0]))
    else if t.ListOf? then SimpleWrapping(t.elem)
    else true
  }

  /** On simply wrapped types the source agrees with the merged reading
      about the list flag and the inner type, and its optional flag is the
      outermost layer's only: an optional layer inside a list is not
      reported. */
  lemma {:induction false} UnwrapSimpleWrapping(t: Ty)
    requires SimpleWrapping(t)
    ensures Unwrap(t).isList == MergedLayers(t).anyList
    ensures Unwrap(t).inner == MergedLayers(t).base
    ensures Unwrap(t).isOptional ==> MergedLayers(t).anyOptional
    decreases Size(t)
  {
    if t.Union? {
      FirstNonNoneSize(t);
      UnwrapSimpleWrapping(NonNone(t.args)[0]);
    } else if t.ListOf? {
      UnwrapSimpleWrapping(t.elem);
    }
  }

  /** `List[Optional[str]]`: the merged reading calls it optional, the
      source does not. */
  lemma OptionalInsideListDropped()
    ensures Unwrap(ListOf(Union([Prim(Str), NoneT]))) == Unwrapped(false, true, Prim(Str))
    ensures MergedLayers(ListOf(Union([Prim(Str), NoneT]))).anyOptional
  {
    var opt := Union([Prim(Str), NoneT]);
    assert NonNone(opt.args) == [Prim(Str)] by {
      assert opt.args[1..] == [NoneT];
      assert [NoneT][1..] == [];
    }
  }

  /** `Union[A, B]` (two arguments other than `None`, the first not a
      list) is neither optional nor a list, and its inner type is `A`. */
  lemma UnwrapWideUnion(args: seq<Ty>)
    requires |NonNone(args)| >= 2
    requires !NonNone(args)[0].ListOf? && !NonNone(args)[0].BareList?
    ensures Unwrap(Union(args)) == Unwrapped(false, false, NonNone(args)[0])
  {
  }
}
