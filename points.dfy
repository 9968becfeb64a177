/**
 * `OpenBmcHttpClient._process_points` and `on_data` (fsmhttp/proto.py:
 * 135-149): a walk of a decoded JSON value against a tree of point
 * specifications that emits one sample per matched scalar, named by the
 * leaf's template filled in from the immediately enclosing container.
 */
module Points {
  import opened Wrappers
  import opened Json
  import Text

  /** A point specification: a mapping from field names to sub-specifications,
      or a leaf `[template, scale]`. The scale is carried but never used. */
  datatype PointSpec =
    | Branch(children: seq<(string, PointSpec)>)
    | Leaf(template: string, scale: real)

  /** What `on_data` prints: the metric name, the raw value and the time. */
  datatype Sample = Sample(name: string, value: Json, tm: real)

  /** The samples emitted, in order, and whether the walk finished without
      raising; samples printed before a raise stay printed. */
  datatype Emission = Emission(out: seq<Sample>, ok: bool)

  function Then(a: Emission, b: Emission): Emission
    requires a.ok
  {
    Emission(a.out + b.out, b.ok)
  }

  // ----- `template.format(**context)` -----

  /** A placeholder `str.format` reads as one key of the mapping: not empty
      and not all digits (both are positional), and without the `.`, `[`,
      `!` or `:` that start an attribute, an index, a conversion or a format
      spec. */
  predicate GoodName(name: string) {
    name != [] && '{' !in name && '}' !in name && !Text.AllDigits(name)
    && '.' !in name && '[' !in name && '!' !in name && ':' !in name
  }

  /** Index of the first `c` in `s`. */
  function IndexOf(s: string, c: char): (r: Option<nat>)
    ensures r.Some? ==> r.value < |s| && s[r.value] == c && c !in s[..r.value]
    ensures r.None? ==> c !in s
  {
    if s == [] then None
    else if s[0] == c then Some(0)
    else match IndexOf(s[1..], c)
      case None => None
      case Some(i) =>
        assert s[..i + 1] == [s[0]] + s[1..][..i];
        Some(i + 1)
  }

  function Prepend(c: char, r: Option<string>): Option<string> {
    if r.Some? then Some([c] + r.value) else None
  }

  function PrependText(t: string, r: Option<string>): Option<string> {
    if r.Some? then Some(t + r.value) else None
  }

  /** `t.format(**fields)` for templates of literal text, `{{`, `}}` and
      `{name}` placeholders; `None` stands for the exception it raises. A
      placeholder that is not a plain key (see `GoodName`) is also `None`. */
  function FormatWith(t: string, fields: seq<(string, Json)>, render: Json -> string): Option<string>
    decreases |t|
  {
    if t == [] then Some([])
    else if t[0] == '{' then
      if |t| > 1 && t[1] == '{' then Prepend('{', FormatWith(t[2..], fields, render))
      else match IndexOf(t[1..], '}')
        case None => None
        case Some(j) =>
          var name := t[1..j + 1];
          if !GoodName(name) then None
          else match Get(fields, name)
            case None => None
            case Some(v) => PrependText(render(v), FormatWith(t[j + 2..], fields, render))
    else if t[0] == '}' then
      if |t| > 1 && t[1] == '}' then Prepend('}', FormatWith(t[2..], fields, render))
      else None
    else Prepend(t[0], FormatWith(t[1..], fields, render))
  }

  /** `template.format(**context)`: the context must be a mapping. */
  function Format(t: string, context: Json, render: Json -> string): Option<string> {
    if context.Obj? then FormatWith(t, context.fields, render) else None
  }

  predicate BraceFree(s: string) {
    '{' !in s && '}' !in s
  }

  lemma FormatPlain(t: string, fields: seq<(string, Json)>, render: Json -> string)
    requires t != [] && t[0] != '{' && t[0] != '}'
    ensures FormatWith(t, fields, render) == Prepend(t[0], FormatWith(t[1..], fields, render))
  {
  }

  /** Literal text without braces is copied through. */
  lemma {:induction false} FormatLiteral(pre: string, rest: string, fields: seq<(string, Json)>, render: Json -> string)
    requires BraceFree(pre)
    ensures FormatWith(pre + rest, fields, render) == PrependText(pre, FormatWith(rest, fields, render))
    decreases |pre|
  {
    if pre == [] {
      assert pre + rest == rest;
      var r := FormatWith(rest, fields, render);
      if r.Some? {
        assert pre + r.value == r.value;
      }
    } else {
      var t := pre + rest;
      assert pre[0] in pre;
      assert t[0] == pre[0];
      assert t[1..] == pre[1..] + rest;
      assert BraceFree(pre[1..]) by {
        assert forall c :: c in pre[1..] ==> c in pre;
      }
      FormatPlain(t, fields, render);
      FormatLiteral(pre[1..], rest, fields, render);
      var r := FormatWith(rest, fields, render);
      if r.Some? {
        assert [pre[0]] + (pre[1..] + r.value) == pre + r.value;
      }
    }
  }

  /** How a `{name}` placeholder is read: the first `}` closes it. */
  lemma HoleParts(name: string, post: string)
    requires BraceFree(name)
    ensures var t := "{" + name + "}" + post;
      && t[0] == '{' && |t| > 1 && t[1] != '{'
      && IndexOf(t[1..], '}') == Some(|name|)
      && t[1..|name| + 1] == name && t[|name| + 2..] == post
  {
    var t := "{" + name + "}" + post;
    assert t[1..] == name + "}" + post;
    if name != [] {
      assert t[1] == name[0] && name[0] in name;
    }
    var s := t[1..];
    assert s[..|name|] == name;
    FirstIndex(s, '}', |name|);
  }

  /** A template with one placeholder: it names the rendered value of that
      key, or raises when the key is missing. */
  lemma FormatOneHole(pre: string, name: string, post: string, fields: seq<(string, Json)>, render: Json -> string)
    requires BraceFree(pre) && BraceFree(post) && GoodName(name)
    ensures FormatWith(pre + "{" + name + "}" + post, fields, render)
         == match Get(fields, name)
            case None => None
            case Some(v) => Some(pre + render(v) + post)
  {
    var t := "{" + name + "}" + post;
    assert pre + "{" + name + "}" + post == pre + t;
    FormatLiteral(pre, t, fields, render);
    HoleParts(name, post);
    FormatLiteral(post, "", fields, render);
    assert post + "" == post;
    match Get(fields, name)
    case None =>
    case Some(v) =>
      assert pre + (render(v) + post) == pre + render(v) + post;
  }

  /** A placeholder that is not a plain key, such as `{a.b}`, `{a[0]}`,
      `{a!r}`, `{a:5}` or `{0}`, is taken as raising, whatever the context. */
  lemma FormatOtherHole(pre: string, name: string, post: string, fields: seq<(string, Json)>, render: Json -> string)
    requires BraceFree(pre) && BraceFree(name) && !GoodName(name)
    ensures FormatWith(pre + "{" + name + "}" + post, fields, render) == None
  {
    var t := "{" + name + "}" + post;
    assert pre + "{" + name + "}" + post == pre + t;
    FormatLiteral(pre, t, fields, render);
    HoleParts(name, post);
  }

  /** A template read as literal characters and named placeholders. */
  datatype Piece = Lit(c: char) | Hole(name: string)

  /** The template text of a list of pieces, with braces doubled. */
  function Print(ps: seq<Piece>): string {
    if ps == [] then ""
    else
      var head := match ps[0]
        case Lit(c) => if c == '{' || c == '}' then [c, c] else [c]
        case Hole(n) => "{" + n + "}";
      head + Print(ps[1..])
  }

  predicate GoodPieces(ps: seq<Piece>) {
    forall i :: 0 <= i < |ps| ==> ps[i].Hole? ==> GoodName(ps[i].name)
  }

  /** Substitution as a reference: each placeholder replaced by the rendered
      value of its key, failing when a key is missing. */
  function Subst(ps: seq<Piece>, fields: seq<(string, Json)>, render: Json -> string): Option<string> {
    if ps == [] then Some("")
    else match ps[0]
      case Lit(c) => Prepend(c, Subst(ps[1..], fields, render))
      case Hole(n) =>
        match Get(fields, n)
        case None => None
        case Some(v) => PrependText(render(v), Subst(ps[1..], fields, render))
  }

  /** Formatting a printed template performs exactly the substitution. */
  lemma {:induction false} FormatPrint(ps: seq<Piece>, fields: seq<(string, Json)>, render: Json -> string)
    requires GoodPieces(ps)
    ensures FormatWith(Print(ps), fields, render) == Subst(ps, fields, render)
    decreases |ps|
  {
    if ps != [] {
      var rest := Print(ps[1..]);
      assert GoodPieces(ps[1..]) by {
        forall i | 0 <= i < |ps[1..]| ensures ps[1..][i].Hole? ==> GoodName(ps[1..][i].name) {
          assert ps[1..][i] == ps[i + 1];
        }
      }
      FormatPrint(ps[1..], fields, render);
      match ps[0]
      case Lit(c) =>
        if c == '{' || c == '}' {
          assert Print(ps) == [c, c] + rest;
          assert Print(ps)[2..] == rest;
        } else {
          assert Print(ps) == [c] + rest;
          assert Print(ps)[1..] == rest;
        }
      case Hole(n) =>
        var t := Print(ps);
        assert t == "{" + n + "}" + rest;
        assert GoodName(n);
        assert t[1..] == n + "}" + rest;
        assert t[1] == n[0] != '{';
        assert IndexOf(t[1..], '}') == Some(|n|) by {
          var s := t[1..];
          assert s[..|n|] == n;
          assert s[|n|] == '}';
          FirstIndex(s, '}', |n|);
        }
        assert t[1..|n| + 1] == n;
        assert t[|n| + 2..] == rest;
    }
  }

  lemma FirstIndex(s: string, c: char, k: nat)
    requires k < |s| && s[k] == c && c !in s[..k]
    ensures IndexOf(s, c) == Some(k)
  {
    var r := IndexOf(s, c);
    assert s[k] in s;
    assert forall j :: 0 <= j < k ==> s[..k][j] == s[j];
  }

  /** Substitution fails exactly when some placeholder's key is missing. */
  lemma {:induction false} SubstFailsIffMissing(ps: seq<Piece>, fields: seq<(string, Json)>, render: Json -> string)
    ensures Subst(ps, fields, render).None?
        <==> exists i :: 0 <= i < |ps| && ps[i].Hole? && Get(fields, ps[i].name).None?
    decreases |ps|
  {
    if ps != [] {
      SubstFailsIffMissing(ps[1..], fields, render);
      assert forall i :: 1 <= i < |ps| ==> ps[i] == ps[1..][i - 1];
      if Subst(ps[1..], fields, render).None? {
        var i :| 0 <= i < |ps[1..]| && ps[1..][i].Hole? && Get(fields, ps[1..][i].name).None?;
        assert ps[i + 1] == ps[1..][i];
      }
    }
  }

  // ----- the walk -----

  /** `_process_points(spec, v, context, tm)`; a missing spec is `None`. */
  function Extract(spec: Option<PointSpec>, v: Json, context: Json, tm: real, render: Json -> string): (e: Emission)
    ensures forall i :: 0 <= i < |e.out| ==> e.out[i].tm == tm
    decreases v, 2
  {
    match spec
    case None => Emission([], true)
    case Some(p) =>
      if v.Obj? then Fields(p, v, 0, tm, render)
      else if v.Arr? then Items(p, v, 0, tm, render)
      else match p
        case Branch(_) => Emission([], false)
        case Leaf(t, _) =>
          match Format(t, context, render)
          case None => Emission([], false)
          case Some(name) => Emission([Sample(name, v, tm)], true)
  }

  /** The loop over a `dict`'s items from the `i`-th on; the object itself is
      the context of every field. A leaf spec has no `.get` and raises as soon
      as there is a field to look up. */
  function Fields(p: PointSpec, obj: Json, i: nat, tm: real, render: Json -> string): (e: Emission)
    requires obj.Obj? && i <= |obj.fields|
    ensures forall j :: 0 <= j < |e.out| ==> e.out[j].tm == tm
    decreases obj, 1, |obj.fields| - i
  {
    if i == |obj.fields| then Emission([], true)
    else if p.Leaf? then Emission([], false)
    else
      var field := obj.fields[i];
      assert field in obj.fields;
      var h := Extract(Get(p.children, field.0), field.1, obj, tm, render);
      if !h.ok then h else Then(h, Fields(p, obj, i + 1, tm, render))
  }

  /** The loop over a `list`'s elements from the `i`-th on, with the same
      spec; the list itself is the context of every element. */
  function Items(p: PointSpec, arr: Json, i: nat, tm: real, render: Json -> string): (e: Emission)
    requires arr.Arr? && i <= |arr.items|
    ensures forall j :: 0 <= j < |e.out| ==> e.out[j].tm == tm
    decreases arr, 1, |arr.items| - i
  {
    if i == |arr.items| then Emission([], true)
    else
      assert arr.items[i] in arr.items;
      var h := Extract(Some(p), arr.items[i], arr, tm, render);
      if !h.ok then h else Then(h, Items(p, arr, i + 1, tm, render))
  }

  /** A scalar field under a leaf is named from the object that holds it,
      not from any ancestor: the walk emits that one sample, with the raw
      value, and goes on with the next field, or raises when a placeholder
      is missing from that object. */
  lemma FieldLeafSample(p: PointSpec, obj: Json, i: nat, t: string, scale: real, tm: real, render: Json -> string)
    requires obj.Obj? && i < |obj.fields| && p.Branch?
    requires Get(p.children, obj.fields[i].0) == Some(Leaf(t, scale)) && IsScalar(obj.fields[i].1)
    ensures Fields(p, obj, i, tm, render)
         == match FormatWith(t, obj.fields, render)
            case None => Emission([], false)
            case Some(name) => Then(Emission([Sample(name, obj.fields[i].1, tm)], true), Fields(p, obj, i + 1, tm, render))
  {
  }

  /** A leaf reached through a list cannot name a scalar element: the list
      is the context, `format(**list)` raises, and nothing is printed. */
  lemma ListLeafRaises(t: string, scale: real, arr: Json, i: nat, tm: real, render: Json -> string)
    requires arr.Arr? && i < |arr.items| && IsScalar(arr.items[i])
    ensures Items(Leaf(t, scale), arr, i, tm, render) == Emission([], false)
  {
    assert Extract(Some(Leaf(t, scale)), arr.items[i], arr, tm, render) == Emission([], false);
  }

  // ----- a reference for what the walk selects -----

  /** A scalar of a document and the keys that lead to it; list positions
      add no key, as the walk keeps the same spec for list elements. */
  datatype Located = Located(path: seq<string>, value: Json)

  /** The scalars of a field's value, as seen from the enclosing object. */
  function Under(k: string, ls: seq<Located>): (r: seq<Located>)
    ensures |r| == |ls|
    ensures forall i :: 0 <= i < |ls| ==> r[i] == Located([k] + ls[i].path, ls[i].value)
  {
    if ls == [] then [] else [Located([k] + ls[0].path, ls[0].value)] + Under(k, ls[1..])
  }

  /** Every scalar of a document, in the order of its fields and elements. */
  function Scalars(v: Json): seq<Located>
    decreases v, 2
  {
    if v.Obj? then FieldScalars(v, 0)
    else if v.Arr? then ItemScalars(v, 0)
    else [Located([], v)]
  }

  function FieldScalars(obj: Json, i: nat): seq<Located>
    requires obj.Obj? && i <= |obj.fields|
    decreases obj, 1, |obj.fields| - i
  {
    if i == |obj.fields| then []
    else
      assert obj.fields[i] in obj.fields;
      Under(obj.fields[i].0, Scalars(obj.fields[i].1)) + FieldScalars(obj, i + 1)
  }

  function ItemScalars(arr: Json, i: nat): seq<Located>
    requires arr.Arr? && i <= |arr.items|
    decreases arr, 1, |arr.items| - i
  {
    if i == |arr.items| then []
    else
      assert arr.items[i] in arr.items;
      Scalars(arr.items[i]) + ItemScalars(arr, i + 1)
  }

  /** The part of the spec tree a key path leads to. */
  function SpecAt(spec: Option<PointSpec>, path: seq<string>): Option<PointSpec>
    decreases |path|
  {
    if path == [] then spec
    else match spec
      case Some(Branch(ch)) => SpecAt(Get(ch, path[0]), path[1..])
      case _ => None
  }

  /** The values of the scalars whose path is present in the spec tree. */
  function Selected(spec: Option<PointSpec>, ls: seq<Located>): seq<Json> {
    if ls == [] then []
    else (if SpecAt(spec, ls[0].path).Some? then [ls[0].value] else []) + Selected(spec, ls[1..])
  }

  function Values(out: seq<Sample>): (r: seq<Json>)
    ensures |r| == |out|
  {
    if out == [] then [] else [out[0].value] + Values(out[1..])
  }

  predicate IsPrefix(a: seq<Json>, b: seq<Json>) {
    |a| <= |b| && b[..|a|] == a
  }

  lemma {:induction false} ValuesAppend(a: seq<Sample>, b: seq<Sample>)
    ensures Values(a + b) == Values(a) + Values(b)
    decreases |a|
  {
    if a != [] {
      assert (a + b)[1..] == a[1..] + b;
      ValuesAppend(a[1..], b);
    } else {
      assert a + b == b;
    }
  }

  lemma {:induction false} SelectedAppend(spec: Option<PointSpec>, a: seq<Located>, b: seq<Located>)
    ensures Selected(spec, a + b) == Selected(spec, a) + Selected(spec, b)
    decreases |a|
  {
    if a != [] {
      assert (a + b)[1..] == a[1..] + b;
      SelectedAppend(spec, a[1..], b);
    } else {
      assert a + b == b;
    }
  }

  /** Below a field `k` of a branch, selection continues in the child spec. */
  lemma {:induction false} SelectedUnder(ch: seq<(string, PointSpec)>, k: string, ls: seq<Located>)
    ensures Selected(Some(Branch(ch)), Under(k, ls)) == Selected(Get(ch, k), ls)
    decreases |ls|
  {
    if ls != [] {
      var path := [k] + ls[0].path;
      assert path[0] == k && path[1..] == ls[0].path;
      SelectedUnder(ch, k, ls[1..]);
    }
  }

  /** Nothing is selected below a missing spec. */
  lemma {:induction false} SelectedNone(ls: seq<Located>)
    ensures Selected(None, ls) == []
    decreases |ls|
  {
    if ls != [] {
      SelectedNone(ls[1..]);
    }
  }

  lemma PrefixExtend(a: seq<Json>, b: seq<Json>, x: seq<Json>, y: seq<Json>)
    requires a == b || (IsPrefix(a, b) && x == [])
    requires IsPrefix(x, y)
    ensures IsPrefix(a + x, b + y)
  {
    if a == b {
      assert (b + y)[..|a + x|] == a + y[..|x|];
    } else {
      assert (b + y)[..|a|] == b[..|a|];
      assert a + x == a;
    }
  }

  /** The walk emits, in order, exactly the scalars whose key path is present
      in the spec tree, each with its raw value; a walk that raises has
      emitted a prefix of them. */
  lemma {:induction false} ExtractSelects(spec: Option<PointSpec>, v: Json, context: Json, tm: real, render: Json -> string)
    ensures IsPrefix(Values(Extract(spec, v, context, tm, render).out), Selected(spec, Scalars(v)))
    ensures Extract(spec, v, context, tm, render).ok
        ==> Values(Extract(spec, v, context, tm, render).out) == Selected(spec, Scalars(v))
    decreases v, 2
  {
    match spec
    case None => SelectedNone(Scalars(v));
    case Some(p) =>
      if v.Obj? {
        FieldsSelect(p, v, 0, tm, render);
      } else if v.Arr? {
        ItemsSelect(p, v, 0, tm, render);
      } else {
        assert Selected(spec, Scalars(v)) == [v];
      }
  }

  lemma {:induction false} FieldsSelect(p: PointSpec, obj: Json, i: nat, tm: real, render: Json -> string)
    requires obj.Obj? && i <= |obj.fields|
    ensures IsPrefix(Values(Fields(p, obj, i, tm, render).out), Selected(Some(p), FieldScalars(obj, i)))
    ensures Fields(p, obj, i, tm, render).ok
        ==> Values(Fields(p, obj, i, tm, render).out) == Selected(Some(p), FieldScalars(obj, i))
    decreases obj, 1, |obj.fields| - i
  {
    if i < |obj.fields| && p.Branch? {
      var field := obj.fields[i];
      assert field in obj.fields;
      var here := Under(field.0, Scalars(field.1));
      var there := FieldScalars(obj, i + 1);
      var h := Extract(Get(p.children, field.0), field.1, obj, tm, render);
      ExtractSelects(Get(p.children, field.0), field.1, obj, tm, render);
      SelectedUnder(p.children, field.0, Scalars(field.1));
      SelectedAppend(Some(p), here, there);
      if h.ok {
        var r := Fields(p, obj, i + 1, tm, render);
        FieldsSelect(p, obj, i + 1, tm, render);
        ValuesAppend(h.out, r.out);
        PrefixExtend(Values(h.out), Selected(Some(p), here), Values(r.out), Selected(Some(p), there));
      } else {
        PrefixExtend(Values(h.out), Selected(Some(p), here), [], Selected(Some(p), there));
        assert Values(h.out) + [] == Values(h.out);
      }
    }
  }

  lemma {:induction false} ItemsSelect(p: PointSpec, arr: Json, i: nat, tm: real, render: Json -> string)
    requires arr.Arr? && i <= |arr.items|
    ensures IsPrefix(Values(Items(p, arr, i, tm, render).out), Selected(Some(p), ItemScalars(arr, i)))
    ensures Items(p, arr, i, tm, render).ok
        ==> Values(Items(p, arr, i, tm, render).out) == Selected(Some(p), ItemScalars(arr, i))
    decreases arr, 1, |arr.items| - i
  {
    if i < |arr.items| {
      var x := arr.items[i];
      assert x in arr.items;
      var here := Scalars(x);
      var there := ItemScalars(arr, i + 1);
      var h := Extract(Some(p), x, arr, tm, render);
      ExtractSelects(Some(p), x, arr, tm, render);
      SelectedAppend(Some(p), here, there);
      if h.ok {
        var r := Items(p, arr, i + 1, tm, render);
        ItemsSelect(p, arr, i + 1, tm, render);
        ValuesAppend(h.out, r.out);
        PrefixExtend(Values(h.out), Selected(Some(p), here), Values(r.out), Selected(Some(p), there));
      } else {
        PrefixExtend(Values(h.out), Selected(Some(p), here), [], Selected(Some(p), there));
        assert Values(h.out) + [] == Values(h.out);
      }
    }
  }
}
