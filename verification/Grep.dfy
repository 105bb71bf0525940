/** The regular-expression matcher of user/grep.c. A C string is a sequence without NUL; reading past
    its end gives NUL. */
module Grep {

  /** Read s[i] of a NUL-terminated string. */
  function Get(s: string, i: nat): (c: char) {
    if i < |s| then s[i] else '\0'
  }

  predicate CString(s: string) {
    '\0' !in s
  }

  // ---- the language of a pattern -----------------------------------------------------------------------

  /** One character, or any number of them; '.' stands for every character. */
  datatype Item = One(c: char) | Star(c: char)

  predicate Fits(c: char, t: char) {
    c == '.' || c == t
  }

  predicate Belongs(item: Item, w: string) {
    (item.One? ==> |w| == 1) && forall i :: 0 <= i < |w| ==> Fits(item.c, w[i])
  }

  /** The items a pattern is made of, after a leading ^: a character followed by * is repeated, a $ at
      the very end is an anchor, everything else stands for itself. */
  function Items(re: string): (s: seq<Item>) {
    if re == "" then []
    else if Get(re, 1) == '*' then [Star(re[0])] + Items(re[2..])
    else if re == "$" then []
    else [One(re[0])] + Items(re[1..])
  }

  predicate Anchored(re: string) {
    if re == "" then false
    else if Get(re, 1) == '*' then Anchored(re[2..])
    else if re == "$" then true
    else Anchored(re[1..])
  }

  function Concat(ws: seq<string>): (w: string) {
    if ws == [] then "" else ws[0] + Concat(ws[1..])
  }

  ghost predicate Splits(items: seq<Item>, ws: seq<string>, w: string) {
    |ws| == |items| && Concat(ws) == w && forall i :: 0 <= i < |items| ==> Belongs(items[i], ws[i])
  }

  /** The words of a pattern: one piece for each item. */
  ghost predicate Lang(items: seq<Item>, w: string) {
    exists ws :: Splits(items, ws, w)
  }

  /** Some prefix of the text is a word; an anchored pattern has to reach the end. */
  ghost predicate Here(re: string, text: string) {
    exists j :: 0 <= j <= |text| && Lang(Items(re), text[..j]) && (Anchored(re) ==> j == |text|)
  }

  /** The substring text[i..j] is a word that ends where it may. */
  ghost predicate WordAt(re: string, text: string, i: int, j: int) {
    0 <= i <= j <= |text| && Lang(Items(re), text[i..j]) && (Anchored(re) ==> j == |text|)
  }

  /** What grep promises: some substring is a word, a prefix if the pattern starts with ^. */
  ghost predicate Matches(re: string, text: string) {
    if Get(re, 0) == '^' then Here(re[1..], text)
    else exists i, j :: WordAt(re, text, i, j)
  }

  // ---- unfolding the language ------------------------------------------------------------------------------

  lemma LangNil(w: string)
    ensures Lang([], w) <==> w == ""
  {
    assert Splits([], [], "");
    if Lang([], w) {
      var ws :| Splits([], ws, w);
      assert ws == [];
    }
  }

  lemma LangCons(item: Item, rest: seq<Item>, w: string, k: nat)
    requires k <= |w| && Belongs(item, w[..k]) && Lang(rest, w[k..])
    ensures Lang([item] + rest, w)
  {
    var ws :| Splits(rest, ws, w[k..]);
    var vs := [w[..k]] + ws;
    assert vs[1..] == ws;
    assert Concat(vs) == w[..k] + w[k..];
    assert w[..k] + w[k..] == w;
    assert Splits([item] + rest, vs, w);
  }

  lemma LangUncons(item: Item, rest: seq<Item>, w: string) returns (k: nat)
    requires Lang([item] + rest, w)
    ensures k <= |w| && Belongs(item, w[..k]) && Lang(rest, w[k..])
  {
    var items := [item] + rest;
    var vs :| Splits(items, vs, w);
    k := |vs[0]|;
    assert w == vs[0] + Concat(vs[1..]);
    assert w[..k] == vs[0] && w[k..] == Concat(vs[1..]);
    assert Belongs(items[0], vs[0]);
    forall i | 0 <= i < |rest| ensures Belongs(rest[i], vs[1..][i]) {
      assert items[i + 1] == rest[i] && vs[1..][i] == vs[i + 1];
    }
    assert Splits(rest, vs[1..], w[k..]);
  }

  lemma HereEmpty(text: string)
    ensures Here("", text)
  {
    LangNil("");
    assert text[..0] == "" && Lang(Items(""), text[..0]);
  }

  lemma HereEnd(text: string)
    ensures Here("$", text) <==> text == ""
  {
    if Here("$", text) {
      var j :| 0 <= j <= |text| && Lang(Items("$"), text[..j]) && (Anchored("$") ==> j == |text|);
      LangNil(text[..j]);
    }
    if text == "" {
      LangNil("");
      assert text[..0] == "" && Lang(Items("$"), text[..0]);
    }
  }

  lemma HereOne(re: string, text: string)
    requires re != "" && Get(re, 1) != '*' && re != "$"
    ensures Here(re, text) <==> text != "" && Fits(re[0], text[0]) && Here(re[1..], text[1..])
  {
    var rest := Items(re[1..]);
    if Here(re, text) {
      var j :| 0 <= j <= |text| && Lang(Items(re), text[..j]) && (Anchored(re) ==> j == |text|);
      var k := LangUncons(One(re[0]), rest, text[..j]);
      assert text[..j][..k][0] == text[0];
      assert text[..j][k..] == text[1..][..j - 1];
    }
    if text != "" && Fits(re[0], text[0]) && Here(re[1..], text[1..]) {
      var j :| 0 <= j <= |text[1..]| && Lang(rest, text[1..][..j]) && (Anchored(re[1..]) ==> j == |text[1..]|);
      assert text[..j + 1][1..] == text[1..][..j];
      LangCons(One(re[0]), rest, text[..j + 1], 1);
    }
  }

  /** The text after k characters that fit c. */
  ghost predicate StarAt(c: char, re: string, text: string, k: nat) {
    k <= |text| && (forall i :: 0 <= i < k ==> Fits(c, text[i])) && Here(re, text[k..])
  }

  lemma HereStar(re: string, text: string)
    requires re != "" && Get(re, 1) == '*'
    ensures |re| >= 2 && (Here(re, text) <==> exists k: nat :: StarAt(re[0], re[2..], text, k))
  {
    var c, rest := re[0], Items(re[2..]);
    if Here(re, text) {
      var j :| 0 <= j <= |text| && Lang(Items(re), text[..j]) && (Anchored(re) ==> j == |text|);
      var k := LangUncons(Star(c), rest, text[..j]);
      assert text[..j][k..] == text[k..][..j - k];
      assert forall i :: 0 <= i < k ==> text[..j][..k][i] == text[i];
      assert StarAt(c, re[2..], text, k);
    }
    if k: nat :| StarAt(c, re[2..], text, k) {
      var j :| 0 <= j <= |text[k..]| && Lang(rest, text[k..][..j]) && (Anchored(re[2..]) ==> j == |text[k..]|);
      assert text[..k + j][k..] == text[k..][..j];
      LangCons(Star(c), rest, text[..k + j], k);
    }
  }

  lemma HereSubstring(re: string, text: string, i: nat)
    requires i <= |text|
    ensures Here(re, text[i..]) <==> exists j :: WordAt(re, text, i, j)
  {
    if Here(re, text[i..]) {
      var j :| 0 <= j <= |text[i..]| && Lang(Items(re), text[i..][..j]) && (Anchored(re) ==> j == |text[i..]|);
      assert text[i..][..j] == text[i..i + j];
      assert WordAt(re, text, i, i + j);
    }
    if j :| WordAt(re, text, i, j) {
      assert text[i..][..j - i] == text[i..j];
    }
  }

  // ---- the code -----------------------------------------------------------------------------------------------

  /** match(re, text) */
  method Match(re: string, text: string) returns (r: bool)
    requires CString(re) && CString(text)
    ensures r <==> Matches(re, text)
  {
    if Get(re, 0) == '^' {
      r := MatchHere(re[1..], text);
      return;
    }
    var t := 0;
    while true
      invariant t <= |text| && forall i :: 0 <= i < t ==> !Here(re, text[i..])
      decreases |text| - t
    {
      r := MatchHere(re, text[t..]);
      HereSubstring(re, text, t);
      if r {
        return true;
      }
      if Get(text, t) == '\0' {
        assert t == |text|;
        break;
      }
      t := t + 1;
    }
    forall i, j ensures !WordAt(re, text, i, j) {
      if 0 <= i <= |text| {
        HereSubstring(re, text, i);
      }
    }
    r := false;
  }

  /** matchhere(re, text) */
  method MatchHere(re: string, text: string) returns (r: bool)
    requires CString(re) && CString(text)
    ensures r <==> Here(re, text)
    decreases |re|, 0
  {
    if Get(re, 0) == '\0' {
      HereEmpty(text);
      return true;
    }
    if Get(re, 1) == '*' {
      HereStar(re, text);
      r := MatchStar(re[0], re[2..], text);
      return;
    }
    if re[0] == '$' && Get(re, 1) == '\0' {
      assert re == "$";
      HereEnd(text);
      return Get(text, 0) == '\0';
    }
    HereOne(re, text);
    if Get(text, 0) != '\0' && (re[0] == '.' || re[0] == text[0]) {
      r := MatchHere(re[1..], text[1..]);
      return;
    }
    return false;
  }

  /** matchstar(c, re, text) */
  method MatchStar(c: char, re: string, text: string) returns (r: bool)
    requires CString(re) && CString(text)
    ensures r <==> exists k: nat :: StarAt(c, re, text, k)
    decreases |re|, 1
  {
    var t := 0;
    while true
      invariant t <= |text| && (forall i :: 0 <= i < t ==> Fits(c, text[i]))
      invariant forall k :: 0 <= k < t ==> !StarAt(c, re, text, k)
      decreases |text| - t
    {
      var here := MatchHere(re, text[t..]);
      if here {
        assert StarAt(c, re, text, t);
        return true;
      }
      if Get(text, t) == '\0' || !(text[t] == c || c == '.') {
        break;
      }
      t := t + 1;
    }
    forall k | 0 <= k <= |text| ensures !StarAt(c, re, text, k) {
      if k > t {
        assert !Fits(c, text[t]);
      }
    }
    r := false;
  }
}
