// The `google_fonts_url` macro of src/lib.rs: it walks a list of font
// entries `("Name", wght = [...], ital = [...])` and builds one URL of the
// Google Fonts CSS2 API. A malformed entry aborts the whole expansion (a
// panic in the macro); here that is an `Err` carrying which rule failed.

module FontsUrl {
  import opened Strings
  import opened MacroInput

  /** The panics of the macro, one per message. */
  datatype Failure =
    | ExpectedTuple                 // an entry that is not a tuple
    | NameRequired                  // an empty tuple: no font name
    | NameNotString                 // a font name that is not a string literal
    | ExpectedIdentifier            // `x = ...` whose left side is not a path
    | InvalidWeight                 // a `wght` element neither integer nor string literal
    | InvalidItalTuple              // an `ital` pair that is not two integer literals
    | InvalidItalValue              // an `ital` element that is not a pair
    | UnknownAttribute(attr: string) // an attribute key other than `wght` and `ital`

  datatype Result<T> = Ok(value: T) | Err(error: Failure)

  const Prefix: string := "https://fonts.googleapis.com/css2?"
  const Suffix: string := "&display=swap"

  // ---------------------------------------------------------------------
  // Specification of the validation loop: every element is rendered in
  // turn and the first failing element aborts.
  // ---------------------------------------------------------------------

  /** `f` applied to each of `xs` in order; the first failure is the result. */
  function Collect<X, T>(xs: seq<X>, f: X -> Result<T>): (r: Result<seq<T>>)
    ensures r.Ok? <==> forall i :: 0 <= i < |xs| ==> f(xs[i]).Ok?
    ensures r.Ok? ==> |r.value| == |xs|
    ensures r.Ok? ==> forall i :: 0 <= i < |xs| ==> r.value[i] == f(xs[i]).value
    ensures r.Err? ==> exists i :: 0 <= i < |xs| && f(xs[i]) == Err(r.error)
  {
    if |xs| == 0 then Ok([])
    else
      match f(xs[0])
      case Err(e) => Err(e)
      case Ok(v) =>
        match Collect(xs[1..], f)
        case Err(e) => Err(e)
        case Ok(vs) => Ok([v] + vs)
  }

  /** The failure reported is that of the first failing element. */
  lemma {:induction false} CollectFirstError<X, T>(xs: seq<X>, f: X -> Result<T>, k: nat)
    requires k < |xs|
    requires forall i :: 0 <= i < k ==> f(xs[i]).Ok?
    requires f(xs[k]).Err?
    ensures Collect(xs, f) == Err(f(xs[k]).error)
  {
    if k > 0 {
      CollectFirstError(xs[1..], f, k - 1);
    }
  }

  /** When every element renders, the result lists their renderings. */
  lemma CollectAllOk<X, T>(xs: seq<X>, f: X -> Result<T>, vs: seq<T>)
    requires |vs| == |xs|
    requires forall i :: 0 <= i < |xs| ==> f(xs[i]) == Ok(vs[i])
    ensures Collect(xs, f) == Ok(vs)
  {
    assert Collect(xs, f).Ok?;
    assert Collect(xs, f).value == vs;
  }

  /** Collecting over a concatenation is collecting over each part in turn. */
  lemma {:induction false} CollectAppend<X, T>(a: seq<X>, b: seq<X>, f: X -> Result<T>)
    ensures Collect(a + b, f) ==
      match Collect(a, f)
      case Err(e) => Err(e)
      case Ok(u) =>
        match Collect(b, f)
        case Err(e) => Err(e)
        case Ok(v) => Ok(u + v)
  {
    if |a| == 0 {
      assert a + b == b;
      if Collect(b, f).Ok? {
        assert [] + Collect(b, f).value == Collect(b, f).value;
      }
    } else {
      assert (a + b)[0] == a[0];
      assert (a + b)[1..] == a[1..] + b;
      CollectAppend(a[1..], b, f);
      match f(a[0])
      case Err(_) =>
      case Ok(x) =>
        match Collect(a[1..], f)
        case Err(_) =>
        case Ok(u) =>
          match Collect(b, f)
          case Err(_) =>
          case Ok(v) => assert [x] + (u + v) == ([x] + u) + v;
    }
  }

  // ---------------------------------------------------------------------
  // Rendering of one element, one argument, one entry.
  // ---------------------------------------------------------------------

  /** A `wght` element: an integer literal gives its digits, a string literal
      its value verbatim; anything else is `InvalidWeight`. */
  function WeightToken(e: Expr): (r: Result<string>)
    ensures r.Ok? <==> e.LitExpr? && (e.lit.IntLit? || e.lit.StrLit?)
    ensures r.Ok? ==> r.value == (if e.lit.IntLit? then e.lit.digits else e.lit.value)
    ensures r.Err? ==> r.error == InvalidWeight
  {
    match e
    case LitExpr(IntLit(d)) => Ok(d)
    case LitExpr(StrLit(s)) => Ok(s)
    case _ => Err(InvalidWeight)
  }

  /** An `ital` element `(i, w)` of two integer literals gives `i,w`. */
  function ItalPair(e: Expr): (r: Result<string>)
    ensures r.Ok? <==>
      (e.Tuple? && |e.elems| == 2 &&
       e.elems[0].LitExpr? && e.elems[0].lit.IntLit? && e.elems[1].LitExpr? && e.elems[1].lit.IntLit?)
    ensures r.Ok? ==> r.value == e.elems[0].lit.digits + "," + e.elems[1].lit.digits
    ensures r.Err? ==> r.error == (if e.Tuple? && |e.elems| == 2 then InvalidItalTuple else InvalidItalValue)
  {
    match e
    case Tuple(t) =>
      if |t| == 2 then
        match (t[0], t[1])
        case (LitExpr(IntLit(i)), LitExpr(IntLit(w))) =>
          Ok(i + "," + w)
        case _ => Err(InvalidItalTuple)
      else Err(InvalidItalValue)
    case _ => Err(InvalidItalValue)
  }

  /** What one argument of an entry adds to its weight and italic lists. */
  datatype Axes = Axes(wghts: seq<string>, itals: seq<string>)

  const NoAxes := Axes([], [])

  /** One argument after the font name. Only `key = rhs` is looked at; a key
      `wght`/`ital` with an array on the right contributes its elements, with
      anything else on the right it contributes nothing. */
  function ArgAxes(arg: Expr): (r: Result<Axes>)
    ensures !arg.Assign? ==> r == Ok(NoAxes)
    ensures arg.Assign? && arg.left.Path? && arg.left.head in {"wght", "ital"} && !arg.right.Array?
      ==> r == Ok(NoAxes)
    ensures r.Ok? ==> r.value.wghts == [] || r.value.itals == []
    ensures r.Err? && r.error.UnknownAttribute? ==> arg.Assign? && arg.left.Path? && arg.left.head == r.error.attr
  {
    match arg
    case Assign(left, right) =>
      if !left.Path? then Err(ExpectedIdentifier)
      else if left.head == "wght" then
        if right.Array? then
          (match Collect(right.elems, WeightToken)
           case Err(e) => Err(e)
           case Ok(ws) => Ok(Axes(ws, [])))
        else Ok(NoAxes)
      else if left.head == "ital" then
        if right.Array? then
          (match Collect(right.elems, ItalPair)
           case Err(e) => Err(e)
           case Ok(ps) => Ok(Axes([], ps)))
        else Ok(NoAxes)
      else Err(UnknownAttribute(left.head))
    case _ => Ok(NoAxes)
  }

  /** The lists of `a` followed by those of `b`. */
  function AppendAxes(a: Axes, b: Axes): Axes
  {
    Axes(a.wghts + b.wghts, a.itals + b.itals)
  }

  /** The weight and italic lists of several arguments, appended in order. */
  function Merge(axes: seq<Axes>): Axes
  {
    if |axes| == 0 then NoAxes
    else AppendAxes(Merge(axes[..|axes| - 1]), axes[|axes| - 1])
  }

  /** `NoAxes` is the unit of appending, and appending is associative, so
      the order in which arguments are merged only matters through their
      sequence. */
  lemma AppendAxesLaws(a: Axes, b: Axes, c: Axes)
    ensures AppendAxes(NoAxes, a) == a && AppendAxes(a, NoAxes) == a
    ensures AppendAxes(AppendAxes(a, b), c) == AppendAxes(a, AppendAxes(b, c))
  {
    assert [] + a.wghts == a.wghts && a.wghts + [] == a.wghts;
    assert [] + a.itals == a.itals && a.itals + [] == a.itals;
  }

  /** A list stays empty when no argument adds to it: weights come only from
      `wght` arguments and italics only from `ital` arguments. */
  lemma {:induction false} MergeKeepsEmpty(axes: seq<Axes>)
    ensures (forall i :: 0 <= i < |axes| ==> axes[i].wghts == []) ==> Merge(axes).wghts == []
    ensures (forall i :: 0 <= i < |axes| ==> axes[i].itals == []) ==> Merge(axes).itals == []
  {
    if |axes| > 0 {
      MergeKeepsEmpty(axes[..|axes| - 1]);
    }
  }

  lemma {:induction false} MergeAppend(a: seq<Axes>, b: seq<Axes>)
    ensures Merge(a + b) == AppendAxes(Merge(a), Merge(b))
  {
    if |b| == 0 {
      assert a + b == a;
    } else {
      assert (a + b)[..|a + b| - 1] == a + b[..|b| - 1];
      MergeAppend(a, b[..|b| - 1]);
    }
  }

  /** The weight and italic lists of an entry's arguments (everything after
      the font name), or the failure of the first malformed argument. */
  function Arguments(args: seq<Expr>): Result<Axes>
  {
    match Collect(args, ArgAxes)
    case Err(e) => Err(e)
    case Ok(axes) => Ok(Merge(axes))
  }

  /** The argument loop succeeds exactly when every argument does; when it
      fails, the failure is that of one of the arguments. */
  lemma ArgumentsOk(args: seq<Expr>)
    ensures Arguments(args).Ok? <==> forall i :: 0 <= i < |args| ==> ArgAxes(args[i]).Ok?
    ensures Arguments(args).Err? ==> exists i :: 0 <= i < |args| && ArgAxes(args[i]) == Err(Arguments(args).error)
  {
  }

  /** When every argument succeeds, the loop merges their contributions. */
  lemma ArgumentsAllOk(args: seq<Expr>, axes: seq<Axes>)
    requires |axes| == |args|
    requires forall i :: 0 <= i < |args| ==> ArgAxes(args[i]) == Ok(axes[i])
    ensures Arguments(args) == Ok(Merge(axes))
  {
    CollectAllOk(args, ArgAxes, axes);
  }

  /** A single argument contributes exactly what it renders to. */
  lemma ArgumentsSingle(arg: Expr)
    ensures Arguments([arg]) == ArgAxes(arg)
  {
    assert [arg][1..] == [];
    if ArgAxes(arg).Ok? {
      var a := ArgAxes(arg).value;
      assert Collect([arg], ArgAxes) == Ok([a] + []);
      assert [a] + [] == [a];
      assert [a][..0] == [];
      assert Merge([a]) == AppendAxes(NoAxes, a);
      AppendAxesLaws(a, a, a);
    }
  }

  /** Arguments are read left to right and their lists appended: the
      arguments of `a + b` give those of `a` followed by those of `b`. */
  lemma ArgumentsAppend(a: seq<Expr>, b: seq<Expr>)
    ensures Arguments(a + b) ==
      match Arguments(a)
      case Err(e) => Err(e)
      case Ok(x) =>
        match Arguments(b)
        case Err(e) => Err(e)
        case Ok(y) => Ok(AppendAxes(x, y))
  {
    CollectAppend(a, b, ArgAxes);
    if Collect(a, ArgAxes).Ok? && Collect(b, ArgAxes).Ok? {
      MergeAppend(Collect(a, ArgAxes).value, Collect(b, ArgAxes).value);
    }
  }

  /** Every space of the name becomes `+`; nothing else is touched. */
  function Normalize(name: string): (r: string)
    ensures |r| == |name|
    ensures forall i :: 0 <= i < |name| ==> r[i] == (if name[i] == ' ' then '+' else name[i])
    ensures ' ' !in r
  {
    if |name| == 0 then ""
    else [if name[0] == ' ' then '+' else name[0]] + Normalize(name[1..])
  }

  /** The style fragment: italics win over weights; empty when both are. */
  function Style(wghts: seq<string>, itals: seq<string>): (r: string)
    ensures r == "" <==> |itals| == 0 && |wghts| == 0
  {
    if |itals| > 0 then "ital,wght@" + Join(itals, ";")
    else if |wghts| > 0 then "wght@" + Join(wghts, ";")
    else ""
  }

  /** `family=<name>`, with `:<style>` only when there is a style. */
  function Family(name: string, style: string): (r: string)
    ensures |r| == 7 + |name| + (if style == "" then 0 else 1 + |style|)
    ensures r[..7] == "family=" && r[7..7 + |name|] == name
    ensures style != "" ==> r[7 + |name|] == ':' && r[8 + |name|..] == style
  {
    if style == "" then "family=" + name
    else "family=" + name + ":" + style
  }

  /** The URL: prefix, the family fragments joined by `&`, fixed suffix. */
  function Assemble(families: seq<string>): (r: string)
    ensures |r| >= |Prefix| + |Suffix|
    ensures r[..|Prefix|] == Prefix
    ensures r[|r| - |Suffix|..] == Suffix
  {
    Prefix + Join(families, "&") + Suffix
  }

  /** The family fragment of one entry, or the failure it raises. */
  function EntryFragment(entry: Expr): (r: Result<string>)
    ensures r.Ok? ==> entry.Tuple? && |entry.elems| > 0 && entry.elems[0].LitExpr? && entry.elems[0].lit.StrLit?
    ensures r.Ok? ==> |r.value| >= 7 && r.value[..7] == "family="
  {
    match entry
    case Tuple(elems) =>
      if |elems| == 0 then Err(NameRequired)
      else if !(elems[0].LitExpr? && elems[0].lit.StrLit?) then Err(NameNotString)
      else
        (match Arguments(elems[1..])
         case Err(e) => Err(e)
         case Ok(m) => Ok(Family(Normalize(elems[0].lit.value), Style(m.wghts, m.itals))))
    case _ => Err(ExpectedTuple)
  }

  /** What the macro expands to for the list of entries `input`. */
  function CompileUrl(input: seq<Expr>): (r: Result<string>)
    ensures r.Ok? <==> forall i :: 0 <= i < |input| ==> EntryFragment(input[i]).Ok?
  {
    match Collect(input, EntryFragment)
    case Err(e) => Err(e)
    case Ok(families) => Ok(Assemble(families))
  }

  /** The first entry that fails decides the error. */
  lemma CompileUrlFails(input: seq<Expr>, k: nat)
    requires k < |input|
    requires forall i :: 0 <= i < k ==> EntryFragment(input[i]).Ok?
    requires EntryFragment(input[k]).Err?
    ensures CompileUrl(input) == Err(EntryFragment(input[k]).error)
  {
    CollectFirstError(input, EntryFragment, k);
  }

  /** The walk over one more element, when that element succeeds. */
  lemma CollectSnoc<X, T>(xs: seq<X>, k: nat, f: X -> Result<T>, vs: seq<T>, v: T)
    requires k < |xs|
    requires Collect(xs[..k], f) == Ok(vs) && f(xs[k]) == Ok(v)
    ensures Collect(xs[..k + 1], f) == Ok(vs + [v])
  {
    assert xs[..k + 1] == xs[..k] + [xs[k]];
    CollectAppend(xs[..k], [xs[k]], f);
    CollectAllOk([xs[k]], f, [v]);
  }

  /** The expansion fails with the first failing entry's error. */
  lemma CompileUrlFailsAt(input: seq<Expr>, k: nat, families: seq<string>)
    requires k < |input|
    requires Collect(input[..k], EntryFragment) == Ok(families)
    requires EntryFragment(input[k]).Err?
    ensures CompileUrl(input) == EntryFragment(input[k])
  {
    forall i | 0 <= i < k ensures EntryFragment(input[i]).Ok? {
      assert input[..k][i] == input[i];
    }
    CompileUrlFails(input, k);
  }

  /** When every entry renders, the URL is assembled from their fragments. */
  lemma CompileUrlSucceeds(input: seq<Expr>, families: seq<string>)
    requires |families| == |input|
    requires forall i :: 0 <= i < |input| ==> EntryFragment(input[i]) == Ok(families[i])
    ensures CompileUrl(input) == Ok(Assemble(families))
  {
    CollectAllOk(input, EntryFragment, families);
  }

  // ---------------------------------------------------------------------
  // The macro body, as the loops that push onto `families`, `wghts` and
  // `itals`.
  // ---------------------------------------------------------------------

  /** The inner loop over a `wght = [...]` array: each element pushed onto
      `wghts` in order, the first invalid one aborting. */
  method PushWeights(elts: seq<Expr>, wghts: seq<string>) returns (r: Result<seq<string>>)
    ensures r == match Collect(elts, WeightToken)
                 case Err(e) => Err(e)
                 case Ok(ws) => Ok(wghts + ws)
  {
    var acc := wghts;
    for j := 0 to |elts|
      invariant |acc| == |wghts| + j
      invariant acc[..|wghts|] == wghts
      invariant forall i :: 0 <= i < j ==> WeightToken(elts[i]) == Ok(acc[|wghts| + i])
    {
      match elts[j]
      case LitExpr(IntLit(d)) =>
        acc := acc + [d];
      case LitExpr(StrLit(s)) =>
        acc := acc + [s];
      case _ =>
        CollectFirstError(elts, WeightToken, j);
        return Err(InvalidWeight);
    }
    assert Collect(elts, WeightToken).value == acc[|wghts|..];
    assert acc == wghts + acc[|wghts|..];
    return Ok(acc);
  }

  /** The inner loop over an `ital = [...]` array: each pair pushed onto
      `itals` as `i,w`, the first invalid element aborting. */
  method PushItals(elts: seq<Expr>, itals: seq<string>) returns (r: Result<seq<string>>)
    ensures r == match Collect(elts, ItalPair)
                 case Err(e) => Err(e)
                 case Ok(ps) => Ok(itals + ps)
  {
    var acc := itals;
    for j := 0 to |elts|
      invariant |acc| == |itals| + j
      invariant acc[..|itals|] == itals
      invariant forall i :: 0 <= i < j ==> ItalPair(elts[i]) == Ok(acc[|itals| + i])
    {
      match elts[j]
      case Tuple(t) =>
        if |t| == 2 {
          match (t[0], t[1])
          case (LitExpr(IntLit(i1)), LitExpr(IntLit(i2))) =>
            acc := acc + [i1 + "," + i2];
          case _ =>
            CollectFirstError(elts, ItalPair, j);
            return Err(InvalidItalTuple);
        } else {
          CollectFirstError(elts, ItalPair, j);
          return Err(InvalidItalValue);
        }
      case _ =>
        CollectFirstError(elts, ItalPair, j);
        return Err(InvalidItalValue);
    }
    assert Collect(elts, ItalPair).value == acc[|itals|..];
    assert acc == itals + acc[|itals|..];
    return Ok(acc);
  }

  /** One pass of the argument loop: a `wght`/`ital` assignment appends to
      the matching list, any other argument leaves both lists alone. */
  method PushArg(arg: Expr, wghts: seq<string>, itals: seq<string>) returns (r: Result<Axes>)
    ensures r == match ArgAxes(arg)
                 case Err(e) => Err(e)
                 case Ok(a) => Ok(Axes(wghts + a.wghts, itals + a.itals))
  {
    if !arg.Assign? {
      return Ok(Axes(wghts, itals));
    }
    if !arg.left.Path? {
      return Err(ExpectedIdentifier);
    }
    var attr := arg.left.head;
    if attr == "wght" {
      if arg.right.Array? {
        var pushed := PushWeights(arg.right.elems, wghts);
        match pushed
        case Err(e) => return Err(e);
        case Ok(ws) => return Ok(Axes(ws, itals));
      }
      assert wghts + [] == wghts && itals + [] == itals;
      return Ok(Axes(wghts, itals));
    } else if attr == "ital" {
      if arg.right.Array? {
        var pushed := PushItals(arg.right.elems, itals);
        match pushed
        case Err(e) => return Err(e);
        case Ok(ps) => return Ok(Axes(wghts, ps));
      }
      return Ok(Axes(wghts, itals));
    } else {
      return Err(UnknownAttribute(attr));
    }
  }

  /** One iteration of the entry loop: validate an entry and render it. */
  method CompileEntry(entry: Expr) returns (r: Result<string>)
    ensures r == EntryFragment(entry)
  {
    if !entry.Tuple? {
      return Err(ExpectedTuple);
    }
    var elems := entry.elems;
    if |elems| == 0 {
      return Err(NameRequired);
    }
    if !(elems[0].LitExpr? && elems[0].lit.StrLit?) {
      return Err(NameNotString);
    }
    var name := Normalize(elems[0].lit.value);
    var args := elems[1..];
    var wghts: seq<string> := [];
    var itals: seq<string> := [];
    ghost var axes: seq<Axes> := [];
    for k := 0 to |args|
      invariant |axes| == k
      invariant forall i :: 0 <= i < k ==> ArgAxes(args[i]) == Ok(axes[i])
      invariant Merge(axes) == Axes(wghts, itals)
    {
      var pushed := PushArg(args[k], wghts, itals);
      if pushed.Err? {
        CollectFirstError(args, ArgAxes, k);
        return Err(pushed.error);
      }
      axes := axes + [ArgAxes(args[k]).value];
      assert axes[..k] == axes[..|axes| - 1];
      wghts, itals := pushed.value.wghts, pushed.value.itals;
    }
    ArgumentsAllOk(args, axes);
    var style := Style(wghts, itals);
    return Ok(Family(name, style));
  }

  /** The macro: every entry rendered in order, then the URL assembled. */
  method GoogleFontsUrl(input: seq<Expr>) returns (r: Result<string>)
    ensures r == CompileUrl(input)
  {
    var families: seq<string> := [];
    for k := 0 to |input|
      invariant Collect(input[..k], EntryFragment) == Ok(families)
    {
      var family := CompileEntry(input[k]);
      if family.Err? {
        CompileUrlFailsAt(input, k, families);
        return family;
      }
      CollectSnoc(input, k, EntryFragment, families, family.value);
      families := families + [family.value];
    }
    assert input[..|input|] == input;
    return Ok(Assemble(families));
  }
}
