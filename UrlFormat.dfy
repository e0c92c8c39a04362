// Reading a CSS2 API URL back into its parts. These decoders are the
// inverses of the builder's rendering functions: each round-trip lemma
// says the builder's output can be taken apart into exactly what was put
// in, in the same order, provided the parts do not hold the separator
// characters (the builder escapes nothing).

module UrlFormat {
  import opened Strings
  import opened FontsUrl

  datatype Option<T> = None | Some(value: T)

  /** The family fragments of a URL: text between the fixed prefix and
      suffix, cut at every `&`. */
  function DecodeUrl(u: string): Option<seq<string>>
  {
    if |u| >= |Prefix| + |Suffix| && u[..|Prefix|] == Prefix && u[|u| - |Suffix|..] == Suffix then
      var middle := u[|Prefix|..|u| - |Suffix|];
      Some(if middle == "" then [] else Split(middle, '&'))
    else None
  }

  /** A family fragment `family=<name>[:<style>]` as its name and style. */
  function DecodeFamily(fragment: string): Option<(string, string)>
  {
    if |fragment| >= 7 && fragment[..7] == "family=" then
      var rest := fragment[7..];
      var k := IndexOf(rest, ':');
      if k < |rest| then Some((rest[..k], rest[k + 1..])) else Some((rest, ""))
    else None
  }

  /** What a style fragment asks for. */
  datatype Selection =
    | DefaultStyle                 // no style fragment at all
    | Weights(tokens: seq<string>) // `wght@w1;w2;...`
    | Italics(pairs: seq<string>)  // `ital,wght@i1,w1;i2,w2;...`

  function DecodeStyle(style: string): Option<Selection>
  {
    if style == "" then Some(DefaultStyle)
    else if |style| >= 10 && style[..10] == "ital,wght@" then Some(Italics(Split(style[10..], ';')))
    else if |style| >= 5 && style[..5] == "wght@" then Some(Weights(Split(style[5..], ';')))
    else None
  }

  lemma JoinStartsWithFirst(parts: seq<string>, sep: string)
    requires |parts| > 0
    ensures |Join(parts, sep)| >= |parts[0]|
  {
  }

  /** The URL lists the family fragments in input order, each once, between
      the prefix and the suffix; the suffix is there exactly once. */
  lemma DecodeAssemble(families: seq<string>)
    requires forall i :: 0 <= i < |families| ==> families[i] != "" && '&' !in families[i]
    ensures DecodeUrl(Assemble(families)) == Some(families)
  {
    var joined := Join(families, "&");
    var u := Assemble(families);
    assert u == Prefix + joined + Suffix;
    assert u[|Prefix|..|u| - |Suffix|] == joined;
    if |families| > 0 {
      JoinStartsWithFirst(families, "&");
      assert "&" == ['&'];
      SplitJoin(families, '&');
    }
  }

  /** A family fragment gives back its name and style, and with no style it
      carries no `:` at all. */
  lemma DecodeFamilyOf(name: string, style: string)
    requires ':' !in name
    ensures DecodeFamily(Family(name, style)) == Some((name, style))
    ensures style == "" ==> ':' !in Family(name, style)
  {
    var fragment := Family(name, style);
    assert fragment[..7] == "family=";
    if style == "" {
      assert fragment[7..] == name;
      assert forall i :: 0 <= i < |fragment| ==> fragment[i] == ("family=" + name)[i];
    } else {
      assert fragment[7..] == name + [':'] + style;
      IndexOfAfter(name, ':', style);
      var rest := name + [':'] + style;
      assert rest[..|name|] == name && rest[|name| + 1..] == style;
    }
  }

  /** The style fragment says italics whenever there are italic pairs, and
      then only they appear; weights appear only without italics. */
  lemma DecodeStyleOf(wghts: seq<string>, itals: seq<string>)
    requires NoneContains(wghts, ';') && NoneContains(itals, ';')
    ensures DecodeStyle(Style(wghts, itals)) ==
      if |itals| > 0 then Some(Italics(itals))
      else if |wghts| > 0 then Some(Weights(wghts))
      else Some(DefaultStyle)
  {
    var style := Style(wghts, itals);
    if |itals| > 0 {
      assert style[..10] == "ital,wght@" && style[10..] == Join(itals, [';']);
      SplitJoin(itals, ';');
    } else if |wghts| > 0 {
      assert style[..5] == "wght@" && style[5..] == Join(wghts, [';']);
      assert style[0] == 'w';
      SplitJoin(wghts, ';');
    }
  }
}
