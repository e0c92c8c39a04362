// What the builder promises about whole entries and whole URLs, derived
// from the specification functions of module FontsUrl.

module Properties {
  import opened Strings
  import opened MacroInput
  import opened FontsUrl
  import opened UrlFormat

  /** Shorthand for the assignment `key = [elems...]` as the macro sees it. */
  function AssignArray(key: string, elems: seq<Expr>): Expr
  {
    Assign(Path(key, []), Array(elems))
  }

  // ---------------------------------------------------------------------
  // The whole URL
  // ---------------------------------------------------------------------

  /** A successful expansion starts with the API prefix and ends with the
      `&display=swap` suffix. */
  lemma CompiledUrlFrame(input: seq<Expr>)
    requires CompileUrl(input).Ok?
    ensures var u := CompileUrl(input).value;
      |u| >= |Prefix| + |Suffix| && u[..|Prefix|] == Prefix && u[|u| - |Suffix|..] == Suffix
  {
  }

  /** Between prefix and suffix a successful expansion lists one fragment per
      entry, in input order, separated by single `&`s. */
  lemma CompiledUrlShape(input: seq<Expr>)
    requires CompileUrl(input).Ok?
    requires forall i :: 0 <= i < |input| ==> '&' !in EntryFragment(input[i]).value
    ensures var fs := DecodeUrl(CompileUrl(input).value);
      fs.Some? && |fs.value| == |input| &&
      forall i :: 0 <= i < |input| ==> fs.value[i] == EntryFragment(input[i]).value
  {
    var families := Collect(input, EntryFragment).value;
    forall i | 0 <= i < |families|
      ensures families[i] != "" && '&' !in families[i]
    {
      assert families[i] == EntryFragment(input[i]).value;
    }
    DecodeAssemble(families);
  }

  /** An empty list of entries is accepted and gives prefix and suffix only. */
  lemma CompileEmpty()
    ensures CompileUrl([]) == Ok("https://fonts.googleapis.com/css2?&display=swap")
  {
    assert Collect([], EntryFragment) == Ok([]);
    assert Join([], "&") == "";
    assert Prefix + "" + Suffix == "https://fonts.googleapis.com/css2?&display=swap";
  }

  // ---------------------------------------------------------------------
  // Failures
  // ---------------------------------------------------------------------

  /** An entry that is not a tuple, has no name, or whose name is not a
      string literal aborts the expansion with that failure. */
  lemma MalformedEntryAborts(entry: Expr)
    ensures !entry.Tuple? ==> EntryFragment(entry) == Err(ExpectedTuple)
    ensures entry.Tuple? && |entry.elems| == 0 ==> EntryFragment(entry) == Err(NameRequired)
    ensures entry.Tuple? && |entry.elems| > 0 && !(entry.elems[0].LitExpr? && entry.elems[0].lit.StrLit?)
      ==> EntryFragment(entry) == Err(NameNotString)
  {
  }

  /** A malformed argument: a key that is not a path, a key other than
      `wght`/`ital`, an invalid weight, an invalid italic element. */
  lemma MalformedArgumentFails(arg: Expr, j: nat)
    ensures arg.Assign? && !arg.left.Path? ==> ArgAxes(arg) == Err(ExpectedIdentifier)
    ensures arg.Assign? && arg.left.Path? && arg.left.head != "wght" && arg.left.head != "ital"
      ==> ArgAxes(arg) == Err(UnknownAttribute(arg.left.head))
    ensures arg.Assign? && arg.left.Path? && arg.left.head == "wght" && arg.right.Array? &&
      j < |arg.right.elems| && WeightToken(arg.right.elems[j]).Err?
      ==> ArgAxes(arg) == Err(InvalidWeight)
    ensures arg.Assign? && arg.left.Path? && arg.left.head == "ital" && arg.right.Array? &&
      j < |arg.right.elems| && ItalPair(arg.right.elems[j]).Err?
      ==> ArgAxes(arg).Err? && ArgAxes(arg).error in {InvalidItalTuple, InvalidItalValue}
  {
    if arg.Assign? && arg.left.Path? && arg.right.Array? && j < |arg.right.elems| {
      var elts := arg.right.elems;
      if arg.left.head == "wght" && WeightToken(elts[j]).Err? {
        assert !Collect(elts, WeightToken).Ok?;
      }
      if arg.left.head == "ital" && ItalPair(elts[j]).Err? {
        assert !Collect(elts, ItalPair).Ok?;
      }
    }
  }

  /** A malformed argument anywhere in any entry aborts the whole expansion. */
  lemma MalformedArgumentAborts(input: seq<Expr>, i: nat, k: nat)
    requires i < |input| && input[i].Tuple?
    requires 1 <= k < |input[i].elems|
    requires ArgAxes(input[i].elems[k]).Err?
    ensures CompileUrl(input).Err?
  {
    var args := input[i].elems[1..];
    assert args[k - 1] == input[i].elems[k];
    assert !Collect(args, ArgAxes).Ok?;
    assert EntryFragment(input[i]).Err?;
  }

  // ---------------------------------------------------------------------
  // Arguments of one entry
  // ---------------------------------------------------------------------

  /** The style an argument list asks for, or its first failure. */
  function StyleOf(args: seq<Expr>): Result<string>
  {
    match Arguments(args)
    case Err(e) => Err(e)
    case Ok(m) => Ok(Style(m.wghts, m.itals))
  }

  /** An entry's result depends on its arguments only through the style
      they ask for (or the failure they raise). */
  lemma SameStyleSameEntry(name: Expr, args1: seq<Expr>, args2: seq<Expr>)
    requires StyleOf(args1) == StyleOf(args2)
    ensures EntryFragment(Tuple([name] + args1)) == EntryFragment(Tuple([name] + args2))
  {
    assert ([name] + args1)[0] == name && ([name] + args1)[1..] == args1;
    assert ([name] + args2)[0] == name && ([name] + args2)[1..] == args2;
  }

  /** An argument that contributes nothing (not an assignment, or a
      `wght`/`ital` key without an array) can be dropped without changing
      the entry's result. */
  lemma SkippedArgumentIgnored(name: Expr, pre: seq<Expr>, x: Expr, post: seq<Expr>)
    requires ArgAxes(x) == Ok(NoAxes)
    ensures EntryFragment(Tuple([name] + (pre + [x] + post))) == EntryFragment(Tuple([name] + (pre + post)))
  {
    SkippedArgumentArguments(pre, x, post);
    SameStyleSameEntry(name, pre + [x] + post, pre + post);
  }

  /** Such an argument leaves the collected lists, or the first failure, as
      they are. */
  lemma SkippedArgumentArguments(pre: seq<Expr>, x: Expr, post: seq<Expr>)
    requires ArgAxes(x) == Ok(NoAxes)
    ensures Arguments(pre + [x] + post) == Arguments(pre + post)
  {
    ArgumentsSingle(x);
    ArgumentsAppend(pre, [x]);
    ArgumentsAppend(pre + [x], post);
    ArgumentsAppend(pre, post);
    if Arguments(pre).Ok? {
      var p := Arguments(pre).value;
      AppendAxesLaws(p, p, p);
    }
  }

  /** Two arguments: both contributions in order, or the first failure. */
  lemma ArgumentsPair(x: Expr, y: Expr)
    ensures Arguments([x, y]) ==
      match ArgAxes(x)
      case Err(e) => Err(e)
      case Ok(a) =>
        match ArgAxes(y)
        case Err(e) => Err(e)
        case Ok(b) => Ok(AppendAxes(a, b))
  {
    ArgumentsSingle(x);
    ArgumentsSingle(y);
    ArgumentsAppend([x], [y]);
    assert [x] + [y] == [x, y];
  }

  /** Two `wght` assignments give the weights of both arrays in order. */
  lemma RepeatedWeights(a: seq<Expr>, b: seq<Expr>)
    ensures Arguments([AssignArray("wght", a), AssignArray("wght", b)]) == Arguments([AssignArray("wght", a + b)])
  {
    ArgumentsPair(AssignArray("wght", a), AssignArray("wght", b));
    ArgumentsSingle(AssignArray("wght", a + b));
    CollectAppend(a, b, WeightToken);
  }

  /** Two `ital` assignments give the pairs of both arrays in order. */
  lemma RepeatedItalics(a: seq<Expr>, b: seq<Expr>)
    ensures Arguments([AssignArray("ital", a), AssignArray("ital", b)]) == Arguments([AssignArray("ital", a + b)])
  {
    ArgumentsPair(AssignArray("ital", a), AssignArray("ital", b));
    ArgumentsSingle(AssignArray("ital", a + b));
    CollectAppend(a, b, ItalPair);
  }

  /** Any other key fails at its first assignment, however many follow. */
  lemma RepeatedUnknown(key: string, a: seq<Expr>, b: seq<Expr>)
    requires key != "wght" && key != "ital"
    ensures Arguments([AssignArray(key, a), AssignArray(key, b)]) == Err(UnknownAttribute(key))
    ensures Arguments([AssignArray(key, a + b)]) == Err(UnknownAttribute(key))
  {
    ArgumentsPair(AssignArray(key, a), AssignArray(key, b));
    ArgumentsSingle(AssignArray(key, a + b));
  }

  /** Two assignments to the same key append: `key = a, key = b` is
      `key = a ++ b`. */
  lemma RepeatedAssignmentsAccumulate(name: Expr, key: string, a: seq<Expr>, b: seq<Expr>)
    ensures EntryFragment(Tuple([name, AssignArray(key, a), AssignArray(key, b)]))
         == EntryFragment(Tuple([name, AssignArray(key, a + b)]))
  {
    var x, y, z := AssignArray(key, a), AssignArray(key, b), AssignArray(key, a + b);
    if key == "wght" {
      RepeatedWeights(a, b);
    } else if key == "ital" {
      RepeatedItalics(a, b);
    } else {
      RepeatedUnknown(key, a, b);
    }
    assert [name, x, y] == [name] + [x, y];
    assert [name, z] == [name] + [z];
    SameStyleSameEntry(name, [x, y], [z]);
  }

  /** A non-empty italic list decides the style alone, whatever weights
      come before it. */
  lemma ItalicsOverrideWeightsStyle(ws: seq<Expr>, ps: seq<Expr>)
    requires Collect(ws, WeightToken).Ok?
    requires |ps| > 0
    ensures StyleOf([AssignArray("wght", ws), AssignArray("ital", ps)]) == StyleOf([AssignArray("ital", ps)])
  {
    var w, p := AssignArray("wght", ws), AssignArray("ital", ps);
    ArgumentsPair(w, p);
    ArgumentsSingle(p);
    var tokens := Collect(ws, WeightToken).value;
    assert ArgAxes(w) == Ok(Axes(tokens, []));
    if Collect(ps, ItalPair).Ok? {
      var italics := Collect(ps, ItalPair).value;
      assert ArgAxes(p) == Ok(Axes([], italics));
      assert Arguments([w, p]) == Ok(Axes(tokens + [], [] + italics));
      assert |italics| > 0;
      assert Style(tokens + [], [] + italics) == Style([], italics);
    } else {
      assert ArgAxes(p) == Err(Collect(ps, ItalPair).error);
    }
  }

  /** Whatever the arguments and their order, an entry whose arguments
      collect a non-empty italic list renders as one `ital` assignment of
      those pairs: the weights have no effect. */
  lemma ItalicsOverrideWeightsAll(name: Expr, args: seq<Expr>, ps: seq<Expr>)
    requires Arguments(args).Ok? && Collect(ps, ItalPair).Ok? && |ps| > 0
    requires Arguments(args).value.itals == Collect(ps, ItalPair).value
    ensures EntryFragment(Tuple([name] + args)) == EntryFragment(Tuple([name] + [AssignArray("ital", ps)]))
  {
    ItalicsDecideStyle(args, ps);
    SameStyleSameEntry(name, args, [AssignArray("ital", ps)]);
  }

  /** Arguments that collect a non-empty italic list ask for the style of
      those italics alone. */
  lemma ItalicsDecideStyle(args: seq<Expr>, ps: seq<Expr>)
    requires Arguments(args).Ok? && Collect(ps, ItalPair).Ok? && |ps| > 0
    requires Arguments(args).value.itals == Collect(ps, ItalPair).value
    ensures StyleOf(args) == StyleOf([AssignArray("ital", ps)])
  {
    ItalicsOnlyStyle(ps);
  }

  /** An `ital` assignment before a `wght` assignment wins as well. */
  lemma ItalicsBeforeWeights(name: Expr, ps: seq<Expr>, ws: seq<Expr>)
    requires Collect(ws, WeightToken).Ok? && Collect(ps, ItalPair).Ok? && |ps| > 0
    ensures EntryFragment(Tuple([name, AssignArray("ital", ps), AssignArray("wght", ws)]))
         == EntryFragment(Tuple([name, AssignArray("ital", ps)]))
  {
    var p, w := AssignArray("ital", ps), AssignArray("wght", ws);
    ArgumentsPair(p, w);
    assert ArgAxes(p) == Ok(Axes([], Collect(ps, ItalPair).value));
    assert ArgAxes(w) == Ok(Axes(Collect(ws, WeightToken).value, []));
    assert Arguments([p, w]).value.itals == Collect(ps, ItalPair).value;
    assert [name, p, w] == [name] + [p, w];
    assert [name, p] == [name] + [p];
    ItalicsOverrideWeightsAll(name, [p, w], ps);
  }

  /** A non-empty italic list after a `wght` assignment: the weights have no
      effect. */
  lemma ItalicsOverrideWeights(name: Expr, ws: seq<Expr>, ps: seq<Expr>)
    requires Collect(ws, WeightToken).Ok?
    requires |ps| > 0
    ensures EntryFragment(Tuple([name, AssignArray("wght", ws), AssignArray("ital", ps)]))
         == EntryFragment(Tuple([name, AssignArray("ital", ps)]))
  {
    var w, p := AssignArray("wght", ws), AssignArray("ital", ps);
    ItalicsOverrideWeightsStyle(ws, ps);
    assert [name, w, p] == [name] + [w, p];
    assert [name, p] == [name] + [p];
    SameStyleSameEntry(name, [w, p], [p]);
  }

  /** A string-named entry that renders decodes back to its normalised name
      and the style its arguments ask for. */
  lemma NamedEntryDecodes(name: string, args: seq<Expr>)
    requires ':' !in name
    requires StyleOf(args).Ok?
    ensures EntryFragment(Tuple([LitExpr(StrLit(name))] + args)).Ok?
    ensures DecodeFamily(EntryFragment(Tuple([LitExpr(StrLit(name))] + args)).value)
         == Some((Normalize(name), StyleOf(args).value))
  {
    NamedEntry(name, args);
    var n := Normalize(name);
    assert ':' !in n by {
      forall i | 0 <= i < |n| ensures n[i] != ':' {
        assert name[i] != ':';
      }
    }
    DecodeFamilyOf(n, StyleOf(args).value);
  }

  /** The entry `("<name>", args...)`: the normalised name with the style of
      its arguments, or the first failure of an argument. */
  lemma NamedEntry(name: string, args: seq<Expr>)
    ensures EntryFragment(Tuple([LitExpr(StrLit(name))] + args)) ==
      match StyleOf(args)
      case Err(e) => Err(e)
      case Ok(style) => Ok(Family(Normalize(name), style))
  {
    assert ([LitExpr(StrLit(name))] + args)[1..] == args;
  }

  /** Weight tokens: each integer literal as its digits and each string
      literal verbatim, in order. */
  lemma WeightTokensRendered(ws: seq<Expr>)
    requires Collect(ws, WeightToken).Ok?
    ensures var tokens := Collect(ws, WeightToken).value;
      |tokens| == |ws| &&
      forall i :: 0 <= i < |ws| ==>
        (ws[i].lit.IntLit? ==> tokens[i] == ws[i].lit.digits) &&
        (ws[i].lit.StrLit? ==> tokens[i] == ws[i].lit.value)
  {
    var tokens := Collect(ws, WeightToken).value;
    forall i | 0 <= i < |ws|
      ensures ws[i].lit.IntLit? ==> tokens[i] == ws[i].lit.digits
      ensures ws[i].lit.StrLit? ==> tokens[i] == ws[i].lit.value
    {
      assert tokens[i] == WeightToken(ws[i]).value;
    }
  }

  /** A lone `wght` assignment asks for the style `wght@` followed by its
      weight tokens joined by `;`. */
  lemma WeightsOnlyStyle(ws: seq<Expr>)
    requires Collect(ws, WeightToken).Ok? && |ws| > 0
    ensures StyleOf([AssignArray("wght", ws)]) == Ok("wght@" + Join(Collect(ws, WeightToken).value, ";"))
  {
    var w := AssignArray("wght", ws);
    ArgumentsSingle(w);
    var tokens := Collect(ws, WeightToken).value;
    assert ArgAxes(w) == Ok(Axes(tokens, []));
  }

  /** An entry with weights only renders `family=<name>:wght@` followed by
      its weight tokens joined by `;`. */
  lemma WeightsOnlyFragment(name: string, ws: seq<Expr>)
    requires Collect(ws, WeightToken).Ok? && |ws| > 0
    ensures EntryFragment(Tuple([LitExpr(StrLit(name)), AssignArray("wght", ws)]))
         == Ok(Family(Normalize(name), "wght@" + Join(Collect(ws, WeightToken).value, ";")))
  {
    var w := AssignArray("wght", ws);
    WeightsOnlyStyle(ws);
    NamedEntry(name, [w]);
    assert [LitExpr(StrLit(name)), w] == [LitExpr(StrLit(name))] + [w];
  }

  /** A lone `ital` assignment asks for the style `ital,wght@` followed by its
      italic pairs joined by `;`. */
  lemma ItalicsOnlyStyle(ps: seq<Expr>)
    requires Collect(ps, ItalPair).Ok? && |ps| > 0
    ensures StyleOf([AssignArray("ital", ps)]) == Ok("ital,wght@" + Join(Collect(ps, ItalPair).value, ";"))
  {
    var p := AssignArray("ital", ps);
    ArgumentsSingle(p);
    var pairs := Collect(ps, ItalPair).value;
    assert ArgAxes(p) == Ok(Axes([], pairs));
  }

  /** An entry with italics only renders `family=<name>:ital,wght@` followed
      by its pairs `i,w` joined by `;`. */
  lemma ItalicsOnlyFragment(name: string, ps: seq<Expr>)
    requires Collect(ps, ItalPair).Ok? && |ps| > 0
    ensures EntryFragment(Tuple([LitExpr(StrLit(name)), AssignArray("ital", ps)]))
         == Ok(Family(Normalize(name), "ital,wght@" + Join(Collect(ps, ItalPair).value, ";")))
  {
    var p := AssignArray("ital", ps);
    ItalicsOnlyStyle(ps);
    NamedEntry(name, [p]);
    assert [LitExpr(StrLit(name)), p] == [LitExpr(StrLit(name))] + [p];
  }

  /** An entry whose arguments add no weights and no italics renders as
      `family=<name>`, with no style part. */
  lemma NoStyleFragment(name: string, args: seq<Expr>)
    requires Arguments(args) == Ok(NoAxes)
    ensures EntryFragment(Tuple([LitExpr(StrLit(name))] + args)) == Ok("family=" + Normalize(name))
  {
    NamedEntry(name, args);
  }

  /** An entry with a name only renders as `family=<name>`; when the name has
      no `:`, neither has the fragment. */
  lemma NameOnlyFragment(name: string)
    ensures EntryFragment(Tuple([LitExpr(StrLit(name))])) == Ok("family=" + Normalize(name))
    ensures ':' !in name ==> ':' !in EntryFragment(Tuple([LitExpr(StrLit(name))])).value
  {
    assert [LitExpr(StrLit(name))] + [] == [LitExpr(StrLit(name))];
    assert Arguments([]) == Ok(NoAxes);
    NoStyleFragment(name, []);
    var n := Normalize(name);
    if ':' !in name {
      assert ':' !in n by {
        forall i | 0 <= i < |n| ensures n[i] != ':' {
          assert name[i] != ':';
        }
      }
      DecodeFamilyOf(n, "");
    }
  }

  /** Normalisation works character by character: it distributes over
      concatenation. */
  lemma {:induction false} NormalizeAppend(a: string, b: string)
    ensures Normalize(a + b) == Normalize(a) + Normalize(b)
  {
    if |a| == 0 {
      assert a + b == b;
    } else {
      assert (a + b)[0] == a[0];
      assert (a + b)[1..] == a[1..] + b;
      NormalizeAppend(a[1..], b);
    }
  }

  /** A name without spaces is kept as it is. */
  lemma NormalizeKeepsSpaceless(name: string)
    requires ' ' !in name
    ensures Normalize(name) == name
  {
    assert forall i :: 0 <= i < |name| ==> Normalize(name)[i] == name[i];
  }

  // ---------------------------------------------------------------------
  // Worked examples
  // ---------------------------------------------------------------------

  /** The URL of a single entry. */
  lemma SingleEntryUrl(entry: Expr, fragment: string)
    requires EntryFragment(entry) == Ok(fragment)
    ensures CompileUrl([entry]) == Ok(Prefix + fragment + Suffix)
  {
    assert [entry][1..] == [];
    assert Collect([entry], EntryFragment) == Ok([fragment] + []);
    assert [fragment] + [] == [fragment];
  }

  /** The URL of two entries. */
  lemma TwoEntryUrl(a: Expr, b: Expr, fa: string, fb: string)
    requires EntryFragment(a) == Ok(fa) && EntryFragment(b) == Ok(fb)
    ensures CompileUrl([a, b]) == Ok(Prefix + (fa + "&" + fb) + Suffix)
  {
    CollectAllOk([a, b], EntryFragment, [fa, fb]);
    assert Join([fa, fb], "&") == fa + "&" + fb;
  }

  lemma NormalizeOpenSans()
    ensures Normalize("Open Sans") == "Open" + "+" + "Sans"
  {
    assert "Open Sans" == "Open" + " " + "Sans";
    NormalizeAppend("Open", " ");
    NormalizeAppend("Open" + " ", "Sans");
    NormalizeKeepsSpaceless("Open");
    NormalizeKeepsSpaceless("Sans");
    assert Normalize(" ") == "+";
  }

  /** `("Open Sans", wght = [400])`. */
  lemma ExampleOpenSans(entry: Expr)
    requires entry == Tuple([LitExpr(StrLit("Open Sans")), AssignArray("wght", [LitExpr(IntLit("400"))])])
    ensures CompileUrl([entry]) == Ok(Prefix + ("family=" + ("Open" + "+" + "Sans") + ":" + ("wght@" + "400")) + Suffix)
  {
    var ws := entry.elems[1].right.elems;
    CollectAllOk(ws, WeightToken, ["400"]);
    WeightsOnlyFragment("Open Sans", ws);
    NormalizeOpenSans();
    assert Join(["400"], ";") == "400";
    SingleEntryUrl(entry, "family=" + ("Open" + "+" + "Sans") + ":" + ("wght@" + "400"));
  }

  /** The pairs `[(0, 400), (1, 700)]` render as `0,400` and `1,700`. */
  lemma RobotoPairs(ps: seq<Expr>)
    requires ps == [Tuple([LitExpr(IntLit("0")), LitExpr(IntLit("400"))]),
                    Tuple([LitExpr(IntLit("1")), LitExpr(IntLit("700"))])]
    ensures Collect(ps, ItalPair) == Ok(["0,400", "1,700"])
  {
    assert "0" + "," + "400" == "0,400" && "1" + "," + "700" == "1,700";
    assert ItalPair(ps[0]) == Ok("0,400");
    assert ItalPair(ps[1]) == Ok("1,700");
    CollectAllOk(ps, ItalPair, ["0,400", "1,700"]);
  }

  /** `("Roboto", ital = [(0, 400), (1, 700)])`. */
  lemma ExampleRobotoItalics(entry: Expr)
    requires entry == Tuple([LitExpr(StrLit("Roboto")), AssignArray("ital", [
                Tuple([LitExpr(IntLit("0")), LitExpr(IntLit("400"))]),
                Tuple([LitExpr(IntLit("1")), LitExpr(IntLit("700"))])])])
    ensures CompileUrl([entry])
         == Ok(Prefix + ("family=" + "Roboto" + ":" + ("ital,wght@" + ("0,400" + ";" + "1,700"))) + Suffix)
  {
    var ps := entry.elems[1].right.elems;
    RobotoPairs(ps);
    ItalicsOnlyFragment("Roboto", ps);
    NormalizeKeepsSpaceless("Roboto");
    var pairs := ["0,400", "1,700"];
    assert pairs[1..] == ["1,700"];
    assert Join(pairs, ";") == "0,400" + ";" + "1,700";
    SingleEntryUrl(entry, "family=" + "Roboto" + ":" + ("ital,wght@" + ("0,400" + ";" + "1,700")));
  }

  /** `("A", foo = [400])`. */
  lemma ExampleUnknownAttribute(entry: Expr)
    requires entry == Tuple([LitExpr(StrLit("A")), AssignArray("foo", [LitExpr(IntLit("400"))])])
    ensures CompileUrl([entry]) == Err(UnknownAttribute("foo"))
  {
    var arg := entry.elems[1];
    ArgumentsSingle(arg);
    assert entry.elems[1..] == [arg];
    CompileUrlFails([entry], 0);
  }
}
