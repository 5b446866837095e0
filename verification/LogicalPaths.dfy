/** Node names and absolute logical paths. */
module LogicalPaths {
  import opened Outcomes

  // ---------------------------------------------------------------------- names

  /** Category Cc. */
  predicate IsControl(c: char) {
    c < ' ' || '\U{7F}' <= c <= '\U{9F}'
  }

  /** The white space that trimming removes. */
  predicate IsSpace(c: char) {
    || '\U{09}' <= c <= '\U{0D}' || c == ' ' || c == '\U{85}' || c == '\U{A0}' || c == '\U{1680}'
    || '\U{2000}' <= c <= '\U{200A}' || c == '\U{2028}' || c == '\U{2029}' || c == '\U{202F}'
    || c == '\U{205F}' || c == '\U{3000}'
  }

  predicate ValidName(name: string) {
    && (exists i | 0 <= i < |name| :: !IsSpace(name[i]))
    && '/' !in name
    && forall i | 0 <= i < |name| :: !IsControl(name[i])
  }

  /** A name a path may contain. */
  predicate ValidSegment(name: string) {
    ValidName(name) && name != "." && name != ".."
  }

  // ------------------------------------------------------------------ splitting

  /** The pieces between slashes; there is always one. */
  function Split(s: string): (pieces: seq<string>)
    ensures |pieces| > 0
  {
    if s == "" then [""]
    else
      var rest := Split(s[1..]);
      if s[0] == '/' then [""] + rest else [[s[0]] + rest[0]] + rest[1..]
  }

  function Join(pieces: seq<string>): string
    requires |pieces| > 0
  {
    if |pieces| == 1 then pieces[0] else pieces[0] + "/" + Join(pieces[1..])
  }

  lemma {:induction false} SplitPiece(piece: string, rest: string)
    requires '/' !in piece
    ensures Split(piece) == [piece]
    ensures Split(piece + "/" + rest) == [piece] + Split(rest)
  {
    if piece == "" {
      assert "" + "/" + rest == "/" + rest;
      assert ("/" + rest)[1..] == rest;
    } else {
      SplitPiece(piece[1..], rest);
      assert (piece + "/" + rest)[1..] == piece[1..] + "/" + rest;
      assert [piece[0]] + piece[1..] == piece;
    }
  }

  /** Splitting undoes joining. */
  lemma {:induction false} SplitJoin(pieces: seq<string>)
    requires |pieces| > 0 && forall i | 0 <= i < |pieces| :: '/' !in pieces[i]
    ensures Split(Join(pieces)) == pieces
  {
    if |pieces| == 1 {
      SplitPiece(pieces[0], "");
    } else {
      SplitJoin(pieces[1..]);
      SplitPiece(pieces[0], Join(pieces[1..]));
    }
  }

  /** Joining undoes splitting. */
  lemma {:induction false} JoinSplit(s: string)
    ensures Join(Split(s)) == s
    ensures forall i | 0 <= i < |Split(s)| :: '/' !in Split(s)[i]
  {
    if s != "" {
      JoinSplit(s[1..]);
      var rest := Split(s[1..]);
      if s[0] == '/' {
        assert ([""] + rest)[1..] == rest;
      } else if |rest| > 1 {
        var first := [s[0]] + rest[0];
        assert ([first] + rest[1..])[1..] == rest[1..];
        assert [s[0]] + Join(rest) == first + "/" + Join(rest[1..]);
      }
    }
  }

  // ---------------------------------------------------------------------- paths

  function Render(names: seq<string>): string {
    if names == [] then "/" else "/" + Join(names)
  }

  /** The path of the root is a slash; each step down adds a slash and the name, the root's
      own slash aside. */
  lemma RenderStep(names: seq<string>, last: string)
    ensures Render([]) == "/" && Render([last]) == "/" + last
    ensures names != [] ==> Render(names + [last]) == Render(names) + "/" + last
  {
    hide Join;
    JoinOne(last);
    if names != [] {
      JoinOneMore(names, last);
      assert "/" + (Join(names) + "/" + last) == "/" + Join(names) + "/" + last;
    }
  }

  lemma JoinOne(name: string)
    ensures Join([name]) == name
  {
  }

  lemma {:induction false} JoinOneMore(names: seq<string>, last: string)
    requires names != []
    ensures Join(names + [last]) == Join(names) + "/" + last
  {
    assert (names + [last])[1..] == names[1..] + [last];
    if |names| > 1 {
      JoinOneMore(names[1..], last);
      var rest := Join(names[1..]);
      assert names[0] + "/" + (rest + "/" + last) == names[0] + "/" + rest + "/" + last;
    }
  }

  /** The segments of a path, or None if it is not a valid absolute path. */
  function Parse(path: string): Option<seq<string>> {
    if path == "/" then Some([])
    else if path == "" || path[0] != '/' then None
    else
      var pieces := Split(path[1..]);
      if forall i | 0 <= i < |pieces| :: ValidSegment(pieces[i]) then Some(pieces) else None
  }

  /** Rendering is parsed back exactly when every name may stand in a path. */
  lemma {:induction false} ParseRender(names: seq<string>)
    requires forall i | 0 <= i < |names| :: ValidName(names[i])
    ensures Parse(Render(names)).Some? <==> forall i | 0 <= i < |names| :: ValidSegment(names[i])
    ensures Parse(Render(names)).Some? ==> Parse(Render(names)).value == names
  {
    if names != [] {
      SplitJoin(names);
      assert Render(names)[1..] == Join(names);
    }
  }

  /** Every valid path is the rendering of its segments. */
  lemma {:induction false} RenderParse(path: string)
    requires Parse(path).Some?
    ensures Render(Parse(path).value) == path
    ensures forall i | 0 <= i < |Parse(path).value| :: ValidSegment(Parse(path).value[i])
  {
    if path != "/" {
      JoinSplit(path[1..]);
      assert path == "/" + path[1..];
    }
  }
}
