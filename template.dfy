/** Python's `template.format(**properties)` restricted to plain named
    placeholders: `{name}` is replaced by str() of the property, `{{` and `}}`
    stand for single braces, and anything else brace-shaped is an error. */
module Template {
  import opened Values

  /** One element of a parsed template: a literal character or a placeholder. */
  datatype Piece = Lit(c: char) | Field(name: string)

  /** The position of the first '}' in `t` at or after `i`, if there is one. */
  function FindClose(t: string, i: nat): (r: Option<nat>)
    requires i <= |t|
    ensures r.Some? ==> i <= r.value < |t| && t[r.value] == '}'
    ensures r.Some? ==> forall k :: i <= k < r.value ==> t[k] != '}'
    ensures r.None? ==> forall k :: i <= k < |t| ==> t[k] != '}'
    decreases |t| - i
  {
    if i == |t| then None
    else if t[i] == '}' then Some(i)
    else FindClose(t, i + 1)
  }

  /** A field name made of digits only (the empty one included) selects a
      positional argument, and format is given keyword arguments only. */
  predicate Positional(name: string) {
    forall k :: 0 <= k < |name| ==> IsDigit(name[k])
  }

  /** The text a placeholder stands for. */
  function Lookup(name: string, bag: Bag): (r: Result<string>)
    ensures r.Ok? <==> !Positional(name) && name in bag
    ensures r.Ok? ==> r.value == bag[name].Str()
    ensures Positional(name) ==> r == Err(PositionalField(name))
    ensures !Positional(name) && name !in bag ==> r == Err(MissingKey(name))
  {
    if Positional(name) then Err(PositionalField(name))
    else if name in bag then Ok(bag[name].Str())
    else Err(MissingKey(name))
  }

  function Prepend(s: string, r: Result<string>): Result<string> {
    match r
    case Ok(v) => Ok(s + v)
    case Err(e) => Err(e)
  }

  /** `t.format(**bag)`, read left to right as CPython does: literal text is
      copied, each placeholder is looked up when it is reached, and the first
      failure, of either kind, is the exception raised. */
  function Format(t: string, bag: Bag): Result<string>
    decreases |t|
  {
    if t == [] then Ok([])
    else if t[0] == '{' then
      if |t| > 1 && t[1] == '{' then Prepend("{", Format(t[2..], bag))
      else
        match FindClose(t, 1)
        case None => Err(BadFormat)
        case Some(j) =>
          if '{' in t[1..j] then Err(BadFormat)
          else
            match Lookup(t[1..j], bag)
            case Err(e) => Err(e)
            case Ok(v) => Prepend(v, Format(t[j + 1..], bag))
    else if t[0] == '}' then
      if |t| > 1 && t[1] == '}' then Prepend("}", Format(t[2..], bag)) else Err(BadFormat)
    else Prepend([t[0]], Format(t[1..], bag))
  }

  function ConsPiece(p: Piece, r: Result<seq<Piece>>): Result<seq<Piece>> {
    match r
    case Ok(ps) => Ok([p] + ps)
    case Err(e) => Err(e)
  }

  /** The structure of a template, independent of any property bag. */
  function Parse(t: string): Result<seq<Piece>>
    decreases |t|
  {
    if t == [] then Ok([])
    else if t[0] == '{' then
      if |t| > 1 && t[1] == '{' then ConsPiece(Lit('{'), Parse(t[2..]))
      else
        match FindClose(t, 1)
        case None => Err(BadFormat)
        case Some(j) =>
          if '{' in t[1..j] then Err(BadFormat)
          else ConsPiece(Field(t[1..j]), Parse(t[j + 1..]))
    else if t[0] == '}' then
      if |t| > 1 && t[1] == '}' then ConsPiece(Lit('}'), Parse(t[2..])) else Err(BadFormat)
    else ConsPiece(Lit(t[0]), Parse(t[1..]))
  }

  /** Substitutes a bag into parsed pieces. */
  function Fill(ps: seq<Piece>, bag: Bag): Result<string>
    decreases |ps|
  {
    if ps == [] then Ok([])
    else
      match ps[0]
      case Lit(c) => Prepend([c], Fill(ps[1..], bag))
      case Field(n) =>
        match Lookup(n, bag)
        case Err(e) => Err(e)
        case Ok(v) => Prepend(v, Fill(ps[1..], bag))
  }

  /** Filling succeeds exactly when every placeholder names a property of the bag. */
  lemma {:induction false} FillOkIff(ps: seq<Piece>, bag: Bag)
    ensures Fill(ps, bag).Ok? <==>
            forall i :: 0 <= i < |ps| && ps[i].Field? ==> !Positional(ps[i].name) && ps[i].name in bag
    decreases |ps|
  {
    if ps != [] {
      FillOkIff(ps[1..], bag);
      assert forall i :: 1 <= i < |ps| ==> ps[i] == ps[1..][i - 1];
    }
  }

  /** The one-pass rendering succeeds exactly when the template is well formed
      and every placeholder can be filled, and then it yields the filled text. */
  lemma {:induction false} FormatIsParseThenFill(t: string, bag: Bag)
    ensures Format(t, bag).Ok? <==> Parse(t).Ok? && Fill(Parse(t).value, bag).Ok?
    ensures Format(t, bag).Ok? ==> Format(t, bag).value == Fill(Parse(t).value, bag).value
    decreases |t|
  {
    if t == [] {
    } else if t[0] == '{' {
      if |t| > 1 && t[1] == '{' {
        FormatIsParseThenFill(t[2..], bag);
      } else {
        match FindClose(t, 1)
        case None =>
        case Some(j) =>
          if '{' !in t[1..j] {
            FormatIsParseThenFill(t[j + 1..], bag);
          }
      }
    } else if t[0] == '}' {
      if |t| > 1 && t[1] == '}' {
        FormatIsParseThenFill(t[2..], bag);
      }
    } else {
      FormatIsParseThenFill(t[1..], bag);
    }
  }

  /** A well-formed template with a placeholder whose property is absent
      raises instead of rendering. */
  lemma MissingPlaceholderRaises(t: string, bag: Bag, i: nat)
    requires Parse(t).Ok? && i < |Parse(t).value|
    requires Parse(t).value[i].Field? && Parse(t).value[i].name !in bag
    ensures Format(t, bag).Err?
  {
    FormatIsParseThenFill(t, bag);
    FillOkIff(Parse(t).value, bag);
  }

  /** Text without braces renders as itself, whatever the bag. */
  lemma {:induction false} BracelessRendersAsItself(t: string, bag: Bag)
    requires forall k :: 0 <= k < |t| ==> t[k] != '{' && t[k] != '}'
    ensures Format(t, bag) == Ok(t)
    decreases |t|
  {
    if t != [] {
      BracelessRendersAsItself(t[1..], bag);
      assert [t[0]] + t[1..] == t;
    }
  }

  /** With properties a = "X" and b = "7", "{a}-{b}" renders as "X-7", and a
      placeholder for an undefined property raises a KeyError. */
  lemma RenderingExample()
    ensures Format("{a}-{b}", map["a" := Text("X"), "b" := Text("7")]) == Ok("X-7")
    ensures Format("{c}", map["a" := Text("X"), "b" := Text("7")]) == Err(MissingKey("c"))
  {
    var bag := map["a" := Text("X"), "b" := Text("7")];
    var t := "{a}-{b}";
    assert FindClose(t, 1) == Some(2);
    assert t[1..2] == "a" && t[3..] == "-{b}";
    var u := "{b}";
    assert FindClose(u, 1) == Some(2);
    assert u[1..2] == "b" && u[3..] == [];
    assert "a"[0] == 'a' && "b"[0] == 'b' && "c"[0] == 'c';
    assert !Positional("a") && !Positional("b") && !Positional("c");
    assert Lookup("b", bag) == Ok("7") && Lookup("a", bag) == Ok("X");
    assert Format(u, bag) == Prepend("7", Format([], bag));
    assert Format([], bag) == Ok([]) && "7" + [] == "7";
    assert Format(u, bag) == Ok("7");
    assert Format("-{b}", bag) == Prepend("-", Format(u, bag));
    assert "-" + "7" == "-7" && "X" + "-7" == "X-7";
    assert Format(t, bag) == Prepend("X", Format("-{b}", bag));
    var w := "{c}";
    assert FindClose(w, 1) == Some(2);
    assert w[1..2] == "c";
  }
}
