/** Substitution against the pieces of the body: a parameter inside a number or a string literal is
    replaced too, and exactly then the result differs from replacing whole names only. */
module MacroPieces {
  import opened Ir
  import opened MacroText

  /** The body with only its whole names replaced, as expansion reads pieces. */
  function ByPieces(body: Text, params: seq<Text>, args: seq<Text>): Text
    requires |args| == |params|
  {
    if body == "" then ""
    else
      var n := Piece(body);
      (if IsStart(body[0]) then Actual(body[..n], params, args) else body[..n]) + ByPieces(body[n..], params, args)
  }

  /** No name in t, wherever it stands, is a parameter. */
  predicate NamesNone(t: Text, params: seq<Text>) {
    if t == "" then true
    else if IsStart(t[0]) then
      var n := Run(t, IsIdent);
      t[..n] !in params && NamesNone(t[n..], params)
    else NamesNone(t[1..], params)
  }

  /** No number and no string literal of the body has a parameter inside. */
  predicate NoneHidden(body: Text, params: seq<Text>) {
    if body == "" then true
    else
      var n := Piece(body);
      (IsStart(body[0]) || NamesNone(body[..n], params)) && NoneHidden(body[n..], params)
  }

  /** No name spans the place where a ends and b begins. */
  predicate Apart(a: Text, b: Text) {
    a == "" || b == "" || !IsIdent(a[|a| - 1]) || !IsIdent(b[0])
  }

  lemma {:induction false} SubstituteSplits(a: Text, b: Text, params: seq<Text>, args: seq<Text>)
    requires |args| == |params| && Apart(a, b)
    ensures Substitute(a + b, params, args) == Substitute(a, params, args) + Substitute(b, params, args)
    decreases |a|
  {
    if a == "" {
      assert a + b == b;
    } else if IsStart(a[0]) {
      var n := Run(a, IsIdent);
      assert (a + b)[..n] == a[..n] && (a + b)[n..] == a[n..] + b;
      assert forall k :: 0 <= k < n ==> (a + b)[k] == a[k];
      RunIs(a + b, IsIdent, n);
      SubstituteSplits(a[n..], b, params, args);
      Reassociate(Actual(a[..n], params, args), Substitute(a[n..], params, args), Substitute(b, params, args));
    } else {
      assert (a + b)[1..] == a[1..] + b;
      SubstituteSplits(a[1..], b, params, args);
      Reassociate([a[0]], Substitute(a[1..], params, args), Substitute(b, params, args));
    }
  }

  /** Text that names no parameter stays as it is. */
  lemma {:induction false} NoneSubstituted(t: Text, params: seq<Text>, args: seq<Text>)
    requires |args| == |params| && NamesNone(t, params)
    ensures Substitute(t, params, args) == t
    decreases |t|
  {
    if t != "" {
      var n := if IsStart(t[0]) then Run(t, IsIdent) else 1;
      NoneSubstituted(t[n..], params, args);
      assert t == t[..n] + t[n..];
    }
  }

  lemma {:induction false} QuotedEnds(t: Text)
    ensures Quoted(t) == |t| || (Quoted(t) > 0 && t[Quoted(t) - 1] == '"')
    decreases |t|
  {
    if t != "" && t[0] != '"' {
      QuotedEnds(if t[0] == '\\' && |t| > 1 then t[2..] else t[1..]);
    }
  }

  lemma {:induction false} PiecesAreApart(body: Text)
    requires body != "" && !IsStart(body[0])
    ensures Apart(body[..Piece(body)], body[Piece(body)..])
  {
    if body[0] == '"' {
      QuotedEnds(body[1..]);
    }
  }

  function Blanks(k: nat): (args: seq<Text>)
    ensures |args| == k && forall i :: 0 <= i < k ==> args[i] == ""
  {
    seq(k, _ => "")
  }

  /** Blank arguments never lengthen, and shorten where a parameter is named. */
  lemma {:induction false} BlanksShorten(t: Text, params: seq<Text>)
    ensures |Substitute(t, params, Blanks(|params|))| <= |t|
    ensures !NamesNone(t, params) ==> |Substitute(t, params, Blanks(|params|))| < |t|
    decreases |t|
  {
    if t != "" {
      var n := if IsStart(t[0]) then Run(t, IsIdent) else 1;
      BlanksShorten(t[n..], params);
    }
  }

  lemma {:induction false} BlanksShortenPieces(body: Text, params: seq<Text>)
    ensures var blanks := Blanks(|params|);
            |Substitute(body, params, blanks)| <= |ByPieces(body, params, blanks)|
            && (!NoneHidden(body, params) ==> |Substitute(body, params, blanks)| < |ByPieces(body, params, blanks)|)
    decreases |body|
  {
    if body != "" {
      var blanks := Blanks(|params|);
      var n := Piece(body);
      BlanksShortenPieces(body[n..], params);
      if !IsStart(body[0]) {
        PiecesAreApart(body);
        assert body == body[..n] + body[n..];
        SubstituteSplits(body[..n], body[n..], params, blanks);
        BlanksShorten(body[..n], params);
      }
    }
  }

  lemma {:induction false} NoneHiddenSuffices(body: Text, params: seq<Text>, args: seq<Text>)
    requires |args| == |params| && NoneHidden(body, params)
    ensures Substitute(body, params, args) == ByPieces(body, params, args)
    decreases |body|
  {
    if body != "" {
      var n := Piece(body);
      NoneHiddenSuffices(body[n..], params, args);
      if !IsStart(body[0]) {
        PiecesAreApart(body);
        assert body == body[..n] + body[n..];
        SubstituteSplits(body[..n], body[n..], params, args);
        NoneSubstituted(body[..n], params, args);
      }
    }
  }

  /** Substitution replaces whole names only, whatever the arguments, exactly when no number and no
      string literal of the body has a parameter inside. */
  lemma {:induction false} WholeNamesOnly(body: Text, params: seq<Text>)
    ensures NoneHidden(body, params) <==>
            forall args: seq<Text> :: |args| == |params| ==> Substitute(body, params, args) == ByPieces(body, params, args)
  {
    if NoneHidden(body, params) {
      forall args: seq<Text> | |args| == |params|
        ensures Substitute(body, params, args) == ByPieces(body, params, args)
      {
        NoneHiddenSuffices(body, params, args);
      }
    } else {
      BlanksShortenPieces(body, params);
      var args := Blanks(|params|);
      assert |args| == |params| && Substitute(body, params, args) != ByPieces(body, params, args);
    }
  }

  /** A suffix of a number is taken for a parameter of that name. */
  lemma {:induction false} SuffixIsReplaced()
    ensures Substitute("1.5f", ["f"], ["x"]) == "1.5x" != ByPieces("1.5f", ["f"], ["x"])
  {
    var t: Text := "1.5f";
    assert Piece(t) == 4 by { RunIs(t, IsNumber, 4); }
    assert t[..4] == t;
    assert t[4..] == "" && ByPieces("", ["f"], ["x"]) == "" && t + "" == t;
    assert ByPieces(t, ["f"], ["x"]) == t;
    assert t[1..] == ".5f" && t[1..][1..] == "5f" && "5f"[1..] == "f";
    RunIs("f", IsIdent, 1);
    assert "f"[..1] == "f" && "f"[1..] == "";
    assert Substitute("f", ["f"], ["x"]) == "x";
    assert Substitute("5f", ["f"], ["x"]) == "5x";
    assert Substitute(".5f", ["f"], ["x"]) == ".5x";
  }
}
