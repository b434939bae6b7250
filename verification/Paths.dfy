/** `PathBuf` as its text: equality is by components, listing filters are by text prefix. */
module Paths {
  import opened Protocol

  /** The pieces of `p` between slashes; at least one, possibly empty. */
  function Split(p: string): (pieces: seq<string>)
    ensures |pieces| >= 1
    decreases |p|
  {
    if p == "" then [""]
    else if p[0] == '/' then [""] + Split(p[1..])
    else
      var rest := Split(p[1..]);
      [[p[0]] + rest[0]] + rest[1..]
  }

  /** Empty pieces and `.` pieces are not components. */
  function Normal(pieces: seq<string>): seq<string> {
    if pieces == [] then []
    else if pieces[0] == "" || pieces[0] == "." then Normal(pieces[1..])
    else [pieces[0]] + Normal(pieces[1..])
  }

  /** The root, or a leading `.` of a relative path. */
  function Anchor(pieces: seq<string>): seq<string>
    requires |pieces| >= 1
  {
    if pieces[0] == "" && |pieces| > 1 then ["/"]
    else if pieces[0] == "." then ["."]
    else []
  }

  function Components(p: Path): seq<string> {
    Anchor(Split(p)) + Normal(Split(p))
  }

  predicate SamePath(p: Path, q: Path) {
    Components(p) == Components(q)
  }

  /** `to_string_lossy().starts_with(..)`, for text that is valid Unicode. */
  predicate HasPrefix(p: Path, prefix: Path) {
    prefix <= p
  }

  lemma {:induction false} SplitAtSlash(a: string, b: string)
    ensures Split(a + "/" + b) == Split(a) + Split(b)
    decreases |a|
  {
    var p := a + "/" + b;
    if a == "" {
      assert p[1..] == b;
    } else {
      assert p[0] == a[0] && p[1..] == a[1..] + "/" + b;
      SplitAtSlash(a[1..], b);
    }
  }

  lemma {:induction false} NormalAppends(x: seq<string>, y: seq<string>)
    ensures Normal(x + y) == Normal(x) + Normal(y)
  {
    if x == [] {
      assert x + y == y;
    } else {
      assert (x + y)[1..] == x[1..] + y;
      NormalAppends(x[1..], y);
    }
  }

  lemma ComponentsAtSlash(a: string, b: string)
    ensures Components(a + "/" + b) == Anchor(Split(a) + Split(b)) + (Normal(Split(a)) + Normal(Split(b)))
  {
    SplitAtSlash(a, b);
    NormalAppends(Split(a), Split(b));
  }

  /** A doubled slash does not change which path is meant. */
  lemma DoubledSlash(a: string, b: string)
    ensures SamePath(a + "/" + ("/" + b), a + "/" + b)
  {
    ComponentsAtSlash(a, b);
    ComponentsAtSlash(a, "/" + b);
    assert Split("/" + b) == [""] + Split(b) by { assert ("/" + b)[1..] == b; }
    DroppedPiece(a, "", b);
  }

  /** Nor does a `.` in the middle. */
  lemma DotPiece(a: string, b: string)
    ensures SamePath(a + "/" + ("." + "/" + b), a + "/" + b)
  {
    ComponentsAtSlash(a, b);
    ComponentsAtSlash(a, "." + "/" + b);
    SplitAtSlash(".", b);
    assert Split(".") == ["."] by { assert "."[1..] == ""; }
    DroppedPiece(a, ".", b);
  }

  /** Nor does a trailing slash, except on the empty path. */
  lemma TrailingSlash(a: string)
    requires a != ""
    ensures SamePath(a + "/", a)
  {
    ComponentsAtSlash(a, "");
    assert a + "/" + "" == a + "/";
    SplitPieces(a);
    assert Split("") == [""] && Normal([""]) == [];
  }

  lemma DroppedPiece(a: string, piece: string, b: string)
    requires piece == "" || piece == "."
    ensures Anchor(Split(a) + ([piece] + Split(b))) == Anchor(Split(a) + Split(b))
    ensures Normal([piece] + Split(b)) == Normal(Split(b))
  {
    assert (Split(a) + ([piece] + Split(b)))[0] == Split(a)[0] == (Split(a) + Split(b))[0];
    assert ([piece] + Split(b))[1..] == Split(b);
  }

  /** A non-empty text either has a slash or is its own only piece. */
  lemma {:induction false} SplitPieces(a: string)
    ensures |Split(a)| == 1 ==> Split(a)[0] == a
    decreases |a|
  {
    if a != "" {
      SplitPieces(a[1..]);
    }
  }

  // ----- canonical spelling -----

  function Join(pieces: seq<string>): string {
    if pieces == [] then "" else if |pieces| == 1 then pieces[0] else pieces[0] + "/" + Join(pieces[1..])
  }

  /** Components spelled out with single slashes. */
  function Render(components: seq<string>): Path {
    if components != [] && components[0] == "/" then "/" + Join(components[1..]) else Join(components)
  }

  predicate Canonical(p: Path) {
    p == Render(Components(p))
  }

  predicate Slashless(piece: string) {
    forall c :: c in piece ==> c != '/'
  }

  predicate Plain(piece: string) {
    piece != "" && piece != "." && Slashless(piece)
  }

  lemma {:induction false} SplitSlashless(a: string)
    requires Slashless(a)
    ensures Split(a) == [a]
    decreases |a|
  {
    if a != "" {
      assert a[0] in a && forall c :: c in a[1..] ==> c in a;
      SplitSlashless(a[1..]);
      assert [a[0]] + a[1..] == a;
    }
  }

  lemma {:induction false} PiecesSlashless(a: string)
    ensures forall piece :: piece in Split(a) ==> Slashless(piece)
    decreases |a|
  {
    if a != "" {
      PiecesSlashless(a[1..]);
      var rest := Split(a[1..]);
      assert rest[0] in rest;
      assert a[0] != '/' ==> Slashless([a[0]] + rest[0]);
      assert forall piece :: piece in rest[1..] ==> piece in rest;
    }
  }

  lemma {:induction false} SplitJoin(pieces: seq<string>)
    requires pieces != [] && forall piece :: piece in pieces ==> Slashless(piece)
    ensures Split(Join(pieces)) == pieces
  {
    SplitSlashless(pieces[0]);
    if |pieces| > 1 {
      SplitJoin(pieces[1..]);
      SplitAtSlash(pieces[0], Join(pieces[1..]));
    }
  }

  lemma {:induction false} NormalIsPlain(pieces: seq<string>)
    requires forall piece :: piece in pieces ==> Slashless(piece)
    ensures forall piece :: piece in Normal(pieces) ==> Plain(piece)
  {
    if pieces != [] {
      NormalIsPlain(pieces[1..]);
    }
  }

  lemma {:induction false} PlainIsNormal(pieces: seq<string>)
    requires forall piece :: piece in pieces ==> Plain(piece)
    ensures Normal(pieces) == pieces
  {
    if pieces != [] {
      assert Plain(pieces[0]) by { assert pieces[0] in pieces; }
      PlainIsNormal(pieces[1..]);
    }
  }

  lemma RenderedComponents(anchor: seq<string>, names: seq<string>)
    requires anchor == [] || anchor == ["/"] || anchor == ["."]
    requires forall piece :: piece in names ==> Plain(piece)
    ensures Components(Render(anchor + names)) == anchor + names
  {
    PlainIsNormal(names);
    var joined := Join(names);
    if names == [] {
      assert Split("") == [""] && Normal([""]) == [];
    } else {
      assert names[0] in names;
      SplitJoin(names);
    }
    if anchor == ["/"] {
      assert (anchor + names)[1..] == names;
      assert ("/" + joined)[1..] == joined;
      NormalAppends([""], Split(joined));
    } else if anchor == ["."] {
      SplitJoin(anchor + names);
      NormalAppends(anchor, names);
    } else {
      assert anchor + names == names;
    }
  }

  /** Every path has exactly one canonical spelling. */
  lemma OneSpelling(p: Path, q: Path)
    ensures SamePath(Render(Components(p)), p) && Canonical(Render(Components(p)))
    ensures Canonical(q) && SamePath(q, p) ==> q == Render(Components(p))
  {
    PiecesSlashless(p);
    NormalIsPlain(Split(p));
    RenderedComponents(Anchor(Split(p)), Normal(Split(p)));
  }
}
