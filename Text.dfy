/**
 * The JavaScript string operations the frontend relies on: `trim`, `split(/\s+/)`,
 * `split('.')`, `includes`, `toLowerCase` and `toUpperCase`. Case mapping is ASCII only.
 */
module Text {

  /** The code points that JavaScript's `\s` class and `String.prototype.trim` treat as white space. */
  predicate IsSpace(c: char) {
    var n := c as int;
    (9 <= n <= 13) || n == 32 || n == 0xA0 || n == 0x1680 || (0x2000 <= n <= 0x200A)
    || n == 0x2028 || n == 0x2029 || n == 0x202F || n == 0x205F || n == 0x3000 || n == 0xFEFF
  }

  /** A string with no white space in it: one word. */
  predicate NoSpace(s: string) {
    forall i :: 0 <= i < |s| ==> !IsSpace(s[i])
  }

  /** A string made of white space only (the empty string included). */
  predicate Blank(s: string) {
    forall i :: 0 <= i < |s| ==> IsSpace(s[i])
  }

  function LowerChar(c: char): char {
    if 'A' <= c <= 'Z' then (c as int + 32) as char else c
  }

  function UpperChar(c: char): char {
    if 'a' <= c <= 'z' then (c as int - 32) as char else c
  }

  /** `s.toLowerCase()`, restricted to ASCII letters. */
  function Lower(s: string): (r: string)
    ensures |r| == |s|
    ensures forall i :: 0 <= i < |s| ==> !('A' <= r[i] <= 'Z')
    ensures forall i :: 0 <= i < |s| && !('A' <= s[i] <= 'Z') ==> r[i] == s[i]
    ensures forall i :: 0 <= i < |s| && 'A' <= s[i] <= 'Z' ==> r[i] as int == s[i] as int + 32
  {
    seq(|s|, i requires 0 <= i < |s| => LowerChar(s[i]))
  }

  /** `s.toUpperCase()`, restricted to ASCII letters. */
  function Upper(s: string): (r: string)
    ensures |r| == |s|
    ensures forall i :: 0 <= i < |s| ==> !('a' <= r[i] <= 'z')
    ensures forall i :: 0 <= i < |s| && !('a' <= s[i] <= 'z') ==> r[i] == s[i]
    ensures forall i :: 0 <= i < |s| && 'a' <= s[i] <= 'z' ==> r[i] as int == s[i] as int - 32
  {
    seq(|s|, i requires 0 <= i < |s| => UpperChar(s[i]))
  }

  /** Lower-casing forgets whatever case the string had, so case changes cannot affect it. */
  lemma LowerOfUpper(s: string)
    ensures Lower(Upper(s)) == Lower(s)
  {
    forall i | 0 <= i < |s|
      ensures Lower(Upper(s))[i] == Lower(s)[i]
    {
      var c := s[i];
      assert Upper(s)[i] == UpperChar(c);
    }
  }

  predicate IsPrefix(p: string, s: string) {
    |p| <= |s| && s[..|p|] == p
  }

  /** `s.includes(t)`: t occurs in s at some position (see ContainsIff). */
  predicate Contains(s: string, t: string)
    ensures Contains(s, t) ==> |t| <= |s|
    ensures t == [] ==> Contains(s, t)
    decreases |s|
  {
    IsPrefix(t, s) || (s != [] && Contains(s[1..], t))
  }

  /** t occurs in s starting at position i. */
  predicate OccursAt(s: string, t: string, i: int) {
    0 <= i && i + |t| <= |s| && s[i..i + |t|] == t
  }

  /** Contains holds exactly when t occurs in s at some position. */
  lemma {:induction false} ContainsIff(s: string, t: string)
    ensures Contains(s, t) <==> exists i :: OccursAt(s, t, i)
  {
    if t == [] {
      assert OccursAt(s, t, 0);
    }
    if IsPrefix(t, s) {
      assert OccursAt(s, t, 0);
    }
    if s != [] {
      ContainsIff(s[1..], t);
      if Contains(s[1..], t) {
        var i :| OccursAt(s[1..], t, i);
        assert s[1..][i..i + |t|] == s[i + 1..i + 1 + |t|];
        assert OccursAt(s, t, i + 1);
      }
      if i :| OccursAt(s, t, i) {
        if i > 0 {
          assert s[1..][i - 1..i - 1 + |t|] == s[i..i + |t|];
          assert OccursAt(s[1..], t, i - 1);
        }
      }
    }
  }

  /** `s.trimStart()`: the longest suffix of s that does not start with white space. */
  function TrimStart(s: string): (r: string)
    ensures |r| <= |s| && r == s[|s| - |r|..]
    ensures r == [] || !IsSpace(r[0])
    ensures Blank(s[..|s| - |r|])
  {
    if s != [] && IsSpace(s[0]) then
      var r := TrimStart(s[1..]);
      TrimStartStep(s, r);
      r
    else s
  }

  /** One more leading space in front of a trimmed tail is one more character of blank prefix. */
  lemma TrimStartStep(s: string, r: string)
    requires s != [] && IsSpace(s[0])
    requires |r| <= |s| - 1 && r == s[1..][|s| - 1 - |r|..]
    requires Blank(s[1..][..|s| - 1 - |r|])
    ensures r == s[|s| - |r|..]
    ensures Blank(s[..|s| - |r|])
  {
    var k := |s| - 1 - |r|;
    assert s[..k + 1] == [s[0]] + s[1..][..k];
    BlankConcat([s[0]], s[1..][..k]);
    assert s[1..][k..] == s[k + 1..];
  }

  /** `s.trimEnd()`: the longest prefix of s that does not end with white space. */
  function TrimEnd(s: string): (r: string)
    ensures |r| <= |s| && r == s[..|r|]
    ensures r == [] || !IsSpace(r[|r| - 1])
    ensures Blank(s[|r|..])
  {
    if s != [] && IsSpace(s[|s| - 1]) then
      var r := TrimEnd(s[..|s| - 1]);
      assert Blank(s[|r|..]) by {
        var b := s[..|s| - 1][|r|..];
        assert s[|r|..] == b + [s[|s| - 1]];
        forall i | 0 <= i < |s| - |r| ensures IsSpace(s[|r|..][i]) {
          if i < |b| {
            assert s[|r|..][i] == b[i];
          }
        }
      }
      r
    else s
  }

  /** `s.trim()`: s with its leading and trailing white space cut off (see TrimCutsPadding). */
  function Trim(s: string): (r: string)
    ensures |r| <= |s|
    ensures r == [] || (!IsSpace(r[0]) && !IsSpace(r[|r| - 1]))
    ensures r == [] <==> Blank(s)
  {
    var u := TrimStart(s);
    TrimBlank(s);
    assert TrimEnd(u) == [] || TrimEnd(u)[0] == u[0];
    TrimEnd(u)
  }

  /**
   * The trimmed string is the middle of s: s is a run of white space, then the trimmed
   * string, then another run of white space.
   */
  lemma TrimCutsPadding(s: string) returns (before: string, after: string)
    ensures Blank(before) && Blank(after)
    ensures s == before + Trim(s) + after
  {
    var u := TrimStart(s);
    var r := TrimEnd(u);
    before := s[..|s| - |u|];
    after := u[|r|..];
    assert Trim(s) == r;
    Pieces(s, |s| - |u|, u, r);
  }

  /** Trimming leaves nothing exactly when there was nothing but white space. */
  lemma TrimBlank(s: string)
    ensures TrimEnd(TrimStart(s)) == [] <==> Blank(s)
  {
    var t := TrimStart(s);
    if TrimEnd(t) == [] {
      TrimEndEmpty(t);
      assert s[..|s|] == s;
    }
    if Blank(s) {
      TrimStartBlank(s);
    }
  }

  /** trimEnd empties a string that starts with a non-space only when it was empty. */
  lemma TrimEndEmpty(t: string)
    requires t == [] || !IsSpace(t[0])
    requires TrimEnd(t) == []
    ensures t == []
  {
    assert t[0..] == t;
  }

  /** trimStart empties a string of white space. */
  lemma TrimStartBlank(s: string)
    requires Blank(s)
    ensures TrimStart(s) == []
  {
  }

  /** Leading white space does not survive trimStart. */
  lemma {:induction false} TrimStartBlankPrefix(ws: string, z: string)
    requires Blank(ws)
    ensures TrimStart(ws + z) == TrimStart(z)
  {
    if ws != [] {
      assert IsSpace((ws + z)[0]);
      assert (ws + z)[1..] == ws[1..] + z;
      assert Blank(ws[1..]) by {
        forall i | 0 <= i < |ws| - 1 ensures IsSpace(ws[1..][i]) {
          assert ws[1..][i] == ws[i + 1];
        }
      }
      TrimStartBlankPrefix(ws[1..], z);
    } else {
      assert ws + z == z;
    }
  }

  /** When x holds a non-space character, trimStart stops inside x. */
  lemma {:induction false} TrimStartAppend(x: string, z: string)
    requires !Blank(x)
    ensures TrimStart(x + z) == TrimStart(x) + z
  {
    if IsSpace(x[0]) {
      assert (x + z)[1..] == x[1..] + z;
      assert !Blank(x[1..]) by {
        var i :| 0 <= i < |x| && !IsSpace(x[i]);
        assert x[1..][i - 1] == x[i];
      }
      TrimStartAppend(x[1..], z);
    }
  }

  /** Trailing white space does not survive trimEnd. */
  lemma {:induction false} TrimEndBlankSuffix(z: string, ws: string)
    requires Blank(ws)
    ensures TrimEnd(z + ws) == TrimEnd(z)
  {
    if ws != [] {
      var s := z + ws;
      var ws' := ws[..|ws| - 1];
      assert IsSpace(s[|s| - 1]);
      assert s[..|s| - 1] == z + ws';
      assert Blank(ws') by {
        forall i | 0 <= i < |ws'| ensures IsSpace(ws'[i]) {
          assert ws'[i] == ws[i];
        }
      }
      TrimEndBlankSuffix(z, ws');
    } else {
      assert z + ws == z;
    }
  }

  /** White space around a string does not change what trim gives. */
  lemma TrimPadding(ws1: string, s: string, ws2: string)
    requires Blank(ws1) && Blank(ws2)
    ensures Trim(ws1 + s + ws2) == Trim(s)
  {
    var all := ws1 + s + ws2;
    if Blank(s) {
      assert Blank(all) by {
        forall i | 0 <= i < |all| ensures IsSpace(all[i]) {
          if i < |ws1| {
            assert all[i] == ws1[i];
          } else if i < |ws1| + |s| {
            assert all[i] == s[i - |ws1|];
          } else {
            assert all[i] == ws2[i - |ws1| - |s|];
          }
        }
      }
    } else {
      assert all == ws1 + (s + ws2);
      TrimStartBlankPrefix(ws1, s + ws2);
      TrimStartAppend(s, ws2);
      TrimEndBlankSuffix(TrimStart(s), ws2);
    }
  }

  /** A string that neither starts nor ends with white space is its own trim. */
  lemma TrimIdentity(s: string)
    requires s != [] && !IsSpace(s[0]) && !IsSpace(s[|s| - 1])
    ensures Trim(s) == s
  {
  }

  /**
   * `s.split(/\s+/)`: the pieces between maximal runs of white space. A leading run
   * yields an empty first piece and a trailing run an empty last piece, as in JavaScript.
   */
  function SplitWs(s: string): (r: seq<string>)
    ensures |r| >= 1
    decreases |s|
  {
    if s == [] then [[]]
    else if IsSpace(s[0]) then [[]] + SplitWs(TrimStart(s[1..]))
    else
      var rest := SplitWs(s[1..]);
      [[s[0]] + rest[0]] + rest[1..]
  }

  /** A string that ends in a non-space character keeps that character through trimStart. */
  lemma TrimStartKeepsLast(x: string)
    requires x != [] && !IsSpace(x[|x| - 1])
    ensures TrimStart(x) != [] && TrimStart(x)[|TrimStart(x)| - 1] == x[|x| - 1]
    ensures !Blank(x)
  {
    var t := TrimStart(x);
    var k := |x| - |t|;
    assert !Blank(x) by {
      assert !IsSpace(x[|x| - 1]);
    }
    assert x[..|x|] == x;
    assert t[|t| - 1] == x[k + |t| - 1];
  }

  /** No piece of a white-space split contains white space. */
  lemma {:induction false} SplitWsPiecesHaveNoSpace(s: string)
    ensures forall w :: w in SplitWs(s) ==> NoSpace(w)
    decreases |s|
  {
    if s == [] {
    } else if IsSpace(s[0]) {
      SplitWsPiecesHaveNoSpace(TrimStart(s[1..]));
    } else {
      SplitWsPiecesHaveNoSpace(s[1..]);
      var rest := SplitWs(s[1..]);
      assert rest[0] in rest;
      assert forall w :: w in rest[1..] ==> w in rest;
    }
  }

  /** A word splits into itself alone. */
  lemma {:induction false} SplitWsWord(w: string)
    requires w != [] && NoSpace(w)
    ensures SplitWs(w) == [w]
  {
    assert !IsSpace(w[0]);
    if |w| == 1 {
      assert w[1..] == [];
      assert SplitWs(w) == [[w[0]] + []];
      assert [w[0]] + [] == w;
    } else {
      assert NoSpace(w[1..]) by {
        forall i | 0 <= i < |w| - 1 ensures !IsSpace(w[1..][i]) {
          assert w[1..][i] == w[i + 1];
        }
      }
      SplitWsWord(w[1..]);
      assert [w[0]] + w[1..] == w;
    }
  }

  /**
   * Splitting a string that does not end in white space: every piece after the first is
   * non-empty, and the first is non-empty too when the string does not start with white space.
   */
  lemma {:induction false} SplitWsPiecesNonEmpty(s: string)
    requires s == [] || !IsSpace(s[|s| - 1])
    ensures forall i :: 1 <= i < |SplitWs(s)| ==> SplitWs(s)[i] != []
    ensures s != [] && !IsSpace(s[0]) ==> SplitWs(s)[0] != []
    decreases |s|, 1
  {
    if s == [] {
    } else if IsSpace(s[0]) {
      SplitWsPiecesNonEmptySpace(s);
    } else {
      SplitWsPiecesNonEmptyWord(s);
    }
  }

  lemma {:induction false} SplitWsPiecesNonEmptySpace(s: string)
    requires s != [] && IsSpace(s[0]) && !IsSpace(s[|s| - 1])
    ensures forall i :: 1 <= i < |SplitWs(s)| ==> SplitWs(s)[i] != []
    decreases |s|, 0
  {
    var t := TrimStart(s[1..]);
    assert s[1..][|s| - 2] == s[|s| - 1];
    TrimStartKeepsLast(s[1..]);
    assert t != [] && !IsSpace(t[0]);
    SplitWsPiecesNonEmpty(t);
    var r := SplitWs(t);
    assert r[0] != [];
    SplitWsSpaceHead(s);
    ConsKeepsNonEmpty([], r);
  }

  /** Putting a piece in front of non-empty pieces leaves every piece after the first non-empty. */
  lemma ConsKeepsNonEmpty<T>(x: seq<T>, r: seq<seq<T>>)
    requires r != [] && r[0] != []
    requires forall i :: 1 <= i < |r| ==> r[i] != []
    ensures forall i :: 1 <= i < |[x] + r| ==> ([x] + r)[i] != []
  {
    forall i | 1 <= i < |[x] + r|
      ensures ([x] + r)[i] != []
    {
      assert ([x] + r)[i] == r[i - 1];
    }
  }

  lemma {:induction false} SplitWsPiecesNonEmptyWord(s: string)
    requires s != [] && !IsSpace(s[0]) && !IsSpace(s[|s| - 1])
    ensures forall i :: 0 <= i < |SplitWs(s)| ==> SplitWs(s)[i] != []
    decreases |s|, 0
  {
    var rest := SplitWs(s[1..]);
    SplitWsWordHead(s);
    assert s[1..] == [] || s[1..][|s| - 2] == s[|s| - 1];
    SplitWsPiecesNonEmpty(s[1..]);
    forall i | 0 <= i < |SplitWs(s)|
      ensures SplitWs(s)[i] != []
    {
      if i > 0 {
        assert SplitWs(s)[i] == rest[i];
      }
    }
  }

  /** One step of the split at a leading white-space character. */
  lemma SplitWsSpaceHead(s: string)
    requires s != [] && IsSpace(s[0])
    ensures SplitWs(s) == [[]] + SplitWs(TrimStart(s[1..]))
  {
  }

  /** One step of the split at a leading word character. */
  lemma SplitWsWordHead(s: string)
    requires s != [] && !IsSpace(s[0])
    ensures SplitWs(s) == [[s[0]] + SplitWs(s[1..])[0]] + SplitWs(s[1..])[1..]
  {
  }

  lemma HeadTailOfConcat<T>(a: seq<T>, b: seq<T>)
    requires a != []
    ensures (a + b)[0] == a[0] && (a + b)[1..] == a[1..] + b
  {
  }

  lemma ConsAssoc<T>(x: T, a: seq<T>, b: seq<T>)
    ensures [x] + (a + b) == ([x] + a) + b
  {
  }

  lemma SplitAt<T>(x: seq<T>, n: nat)
    requires n <= |x|
    ensures x == x[..n] + x[n..]
  {
  }

  lemma Regroup<T>(a: seq<T>, b: seq<T>, c: seq<T>, d: seq<T>)
    ensures (a + b) + c + d == a + (b + c) + d
  {
  }

  lemma Pieces<T>(s: seq<T>, i: nat, u: seq<T>, r: seq<T>)
    requires i <= |s| && u == s[i..] && |r| <= |u| && r == u[..|r|]
    ensures s == s[..i] + r + u[|r|..]
  {
  }

  /** A leading run of white space gives an empty first piece and is otherwise dropped. */
  lemma SplitWsBlankHead(ws: string, y: string)
    requires ws != [] && Blank(ws)
    ensures SplitWs(ws + y) == [[]] + SplitWs(TrimStart(y))
  {
    assert IsSpace((ws + y)[0]);
    assert (ws + y)[1..] == ws[1..] + y;
    assert Blank(ws[1..]) by {
      forall i | 0 <= i < |ws| - 1 ensures IsSpace(ws[1..][i]) {
        assert ws[1..][i] == ws[i + 1];
      }
    }
    TrimStartBlankPrefix(ws[1..], y);
  }

  /**
   * A run of white space after a word-ending string separates it from what follows:
   * the pieces of the whole are the pieces of either side, however long the run is.
   */
  lemma {:induction false} SplitWsConcat(x: string, ws: string, y: string)
    requires x != [] && !IsSpace(x[|x| - 1])
    requires ws != [] && Blank(ws)
    ensures SplitWs(x + ws + y) == SplitWs(x) + SplitWs(TrimStart(y))
    decreases |x|, 1
  {
    if IsSpace(x[0]) {
      SplitWsConcatSpace(x, ws, y);
    } else if |x| == 1 {
      SplitWsConcatLetter(x, ws, y);
    } else {
      SplitWsConcatWord(x, ws, y);
    }
  }

  lemma {:induction false} SplitWsConcatSpace(x: string, ws: string, y: string)
    requires x != [] && IsSpace(x[0]) && !IsSpace(x[|x| - 1])
    requires ws != [] && Blank(ws)
    ensures SplitWs(x + ws + y) == SplitWs(x) + SplitWs(TrimStart(y))
    decreases |x|, 0
  {
    var s := x + ws + y;
    var x' := x[1..];
    assert s[0] == x[0];
    assert s[1..] == x' + (ws + y);
    var tail := SplitWs(TrimStart(y));
    assert |x| >= 2;
    assert x'[|x'| - 1] == x[|x| - 1];
    TrimStartKeepsLast(x');
    var t := TrimStart(x');
    assert t + (ws + y) == t + ws + y;
    TrimStartAppend(x', ws + y);
    assert TrimStart(s[1..]) == t + ws + y;
    assert SplitWs(s) == [[]] + SplitWs(t + ws + y);
    SplitWsConcat(t, ws, y);
    ConsAssoc([], SplitWs(t), tail);
    assert SplitWs(x) == [[]] + SplitWs(t);
  }

  lemma SplitWsConcatLetter(x: string, ws: string, y: string)
    requires |x| == 1 && !IsSpace(x[0])
    requires ws != [] && Blank(ws)
    ensures SplitWs(x + ws + y) == SplitWs(x) + SplitWs(TrimStart(y))
  {
    var s := x + ws + y;
    var c := x[0];
    assert s[0] == c;
    assert s[1..] == ws + y;
    SplitWsBlankHead(ws, y);
    var rest := SplitWs(ws + y);
    assert rest[0] == [];
    assert rest[1..] == SplitWs(TrimStart(y));
    assert SplitWs(s) == [[c] + rest[0]] + rest[1..];
    assert [c] + rest[0] == [c];
    assert x[1..] == [];
    assert SplitWs(x) == [[c] + SplitWs([])[0]] + SplitWs([])[1..];
    assert SplitWs(x) == [[c]];
  }

  lemma {:induction false} SplitWsConcatWord(x: string, ws: string, y: string)
    requires |x| >= 2 && !IsSpace(x[0]) && !IsSpace(x[|x| - 1])
    requires ws != [] && Blank(ws)
    ensures SplitWs(x + ws + y) == SplitWs(x) + SplitWs(TrimStart(y))
    decreases |x|, 0
  {
    var s := x + ws + y;
    var x' := x[1..];
    var tail := SplitWs(TrimStart(y));
    assert s[0] == x[0];
    assert s[1..] == x' + ws + y;
    assert x'[|x'| - 1] == x[|x| - 1];
    SplitWsConcat(x', ws, y);
    var a := SplitWs(x');
    var rest := SplitWs(s[1..]);
    assert rest == a + tail;
    HeadTailOfConcat(a, tail);
    assert SplitWs(s) == [[x[0]] + rest[0]] + rest[1..];
    assert SplitWs(x) == [[x[0]] + a[0]] + a[1..];
    ConsAssoc([x[0]] + a[0], a[1..], tail);
  }

  /** A string ending in a run of white space and then a word has that word as its last piece. */
  lemma SplitWsLastWord(x: string, ws: string, w: string)
    requires ws != [] && Blank(ws)
    requires w != [] && NoSpace(w)
    ensures |SplitWs(x + ws + w)| >= 2
    ensures SplitWs(x + ws + w)[|SplitWs(x + ws + w)| - 1] == w
  {
    var s := x + ws + w;
    var x1 := TrimEnd(x);
    var ws1 := x[|x1|..] + ws;
    TrimEndSplits(x, ws, w);
    if x1 == [] {
      SplitWsLastWordAlone(s, ws1, w);
    } else {
      SplitWsLastWordAfter(s, x1, ws1, w);
    }
  }

  /** Cutting the trailing white space off `x` moves it into the run that follows. */
  lemma TrimEndSplits(x: string, ws: string, w: string)
    requires Blank(ws)
    ensures x + ws + w == TrimEnd(x) + (x[|TrimEnd(x)|..] + ws) + w
    ensures Blank(x[|TrimEnd(x)|..] + ws)
  {
    var x1 := TrimEnd(x);
    var tail := x[|x1|..];
    SplitAt(x, |x1|);
    Regroup(x1, tail, ws, w);
    BlankConcat(tail, ws);
  }

  /** Two runs of white space make one. */
  lemma BlankConcat(a: string, b: string)
    requires Blank(a) && Blank(b)
    ensures Blank(a + b)
  {
    forall i | 0 <= i < |a + b| ensures IsSpace((a + b)[i]) {
      if i < |a| {
        assert (a + b)[i] == a[i];
      } else {
        assert (a + b)[i] == b[i - |a|];
      }
    }
  }

  lemma SplitWsLastWordAlone(s: string, ws: string, w: string)
    requires ws != [] && Blank(ws)
    requires w != [] && NoSpace(w)
    requires s == [] + ws + w
    ensures |SplitWs(s)| >= 2 && SplitWs(s)[|SplitWs(s)| - 1] == w
  {
    assert !IsSpace(w[0]);
    SplitWsWord(w);
    assert s == ws + w;
    SplitWsBlankHead(ws, w);
  }

  lemma SplitWsLastWordAfter(s: string, x: string, ws: string, w: string)
    requires x != [] && !IsSpace(x[|x| - 1])
    requires ws != [] && Blank(ws)
    requires w != [] && NoSpace(w)
    requires s == x + ws + w
    ensures |SplitWs(s)| >= 2 && SplitWs(s)[|SplitWs(s)| - 1] == w
  {
    assert !IsSpace(w[0]);
    assert TrimStart(w) == w;
    SplitWsWord(w);
    SplitWsConcat(x, ws, w);
    assert SplitWs(s) == SplitWs(x) + [w];
  }

  /** `s.split(sep)` for a one-character separator. */
  function SplitOn(s: string, sep: char): (r: seq<string>)
    ensures |r| >= 1
    ensures sep !in s ==> r == [s]
    ensures sep in s ==> |r| >= 2
  {
    if s == [] then [[]]
    else if s[0] == sep then [[]] + SplitOn(s[1..], sep)
    else
      var rest := SplitOn(s[1..], sep);
      assert sep in s ==> sep in s[1..];
      assert sep !in s ==> s == [s[0]] + s[1..];
      [[s[0]] + rest[0]] + rest[1..]
  }

  /** `pieces.join(sep)`: the pieces with the separator between each two. */
  function JoinOn(pieces: seq<string>, sep: char): string
    requires |pieces| >= 1
  {
    if |pieces| == 1 then pieces[0] else pieces[0] + [sep] + JoinOn(pieces[1..], sep)
  }

  /** Joining the pieces of a split with the same separator gives back the string. */
  lemma {:induction false} SplitOnJoin(s: string, sep: char)
    ensures JoinOn(SplitOn(s, sep), sep) == s
  {
    if s == [] {
    } else if s[0] == sep {
      var rest := SplitOn(s[1..], sep);
      SplitOnJoin(s[1..], sep);
      JoinOnCons([], rest, sep);
      assert [[]] + rest == SplitOn(s, sep);
      SplitAt(s, 1);
    } else {
      var rest := SplitOn(s[1..], sep);
      SplitOnJoin(s[1..], sep);
      assert [[s[0]] + rest[0]] + rest[1..] == SplitOn(s, sep);
      if |rest| == 1 {
        assert [[s[0]] + rest[0]] + rest[1..] == [[s[0]] + rest[0]];
      } else {
        JoinOnCons([s[0]] + rest[0], rest[1..], sep);
        ConsJoin(s[0], rest[0], sep, JoinOn(rest[1..], sep));
      }
      SplitAt(s, 1);
    }
  }

  /** No piece of `split(sep)` contains the separator. */
  lemma {:induction false} SplitOnPiecesNoSep(s: string, sep: char)
    ensures forall p :: p in SplitOn(s, sep) ==> sep !in p
  {
    if s != [] {
      SplitOnPiecesNoSep(s[1..], sep);
      if s[0] != sep {
        var rest := SplitOn(s[1..], sep);
        assert rest[0] in rest;
        assert forall p :: p in rest[1..] ==> p in rest;
      }
    }
  }

  lemma JoinOnCons(p: string, ps: seq<string>, sep: char)
    requires |ps| >= 1
    ensures JoinOn([p] + ps, sep) == p + [sep] + JoinOn(ps, sep)
  {
    assert ([p] + ps)[1..] == ps;
  }

  lemma ConsJoin<T>(x: T, a: seq<T>, y: T, j: seq<T>)
    ensures ([x] + a) + [y] + j == [x] + (a + [y] + j)
  {
  }

  /** A separator-free head is the first piece; the pieces after it are those of the rest. */
  lemma {:induction false} SplitOnHead(p: string, sep: char, rest: string)
    requires sep !in p
    ensures SplitOn(p + [sep] + rest, sep) == [p] + SplitOn(rest, sep)
  {
    if p == [] {
      assert [sep] + rest == p + [sep] + rest;
      assert (p + [sep] + rest)[1..] == rest;
    } else {
      var x := p + [sep] + rest;
      assert x[0] == p[0] && x[1..] == p[1..] + [sep] + rest;
      SplitOnHead(p[1..], sep, rest);
      var r := SplitOn(x[1..], sep);
      assert r[0] == p[1..] && r[1..] == SplitOn(rest, sep);
      assert SplitOn(x, sep) == [[p[0]] + r[0]] + r[1..];
      assert [p[0]] + p[1..] == p;
    }
  }

  function DigitChar(d: nat): char
    requires d < 10
  {
    ('0' as int + d) as char
  }

  /** The decimal spelling of n, as JavaScript writes an array index key. */
  function Decimal(n: nat): (r: string)
    ensures r != []
  {
    if n < 10 then [DigitChar(n)] else Decimal(n / 10) + [DigitChar(n % 10)]
  }

  /** The index keys "0", "1", … of the first n positions of an array or string. */
  function IndexKeys(n: nat): (ks: set<string>)
    ensures forall m: nat :: Decimal(m) in ks <==> m < n
    ensures |ks| == n
  {
    if n == 0 then {}
    else
      var prev := IndexKeys(n - 1);
      forall m: nat
        ensures Decimal(m) == Decimal(n - 1) <==> m == n - 1
      {
        if m != n - 1 {
          DecimalDistinct(m, n - 1);
        }
      }
      prev + {Decimal(n - 1)}
  }

  lemma {:induction false} DecimalDistinct(m: nat, n: nat)
    requires m != n
    ensures Decimal(m) != Decimal(n)
    decreases n
  {
    if m < 10 && n < 10 {
      assert Decimal(m)[0] != Decimal(n)[0];
    } else if m < 10 {
      assert |Decimal(n)| >= 2;
    } else if n < 10 {
      assert |Decimal(m)| >= 2;
    } else if m % 10 != n % 10 {
      assert Decimal(m)[|Decimal(m)| - 1] != Decimal(n)[|Decimal(n)| - 1];
    } else {
      DecimalDistinct(m / 10, n / 10);
      AppendCancels(Decimal(m / 10), Decimal(n / 10), DigitChar(m % 10), DigitChar(n % 10));
    }
  }

  /** Two sequences that agree after one more element each agreed before it. */
  lemma AppendCancels<T>(a: seq<T>, b: seq<T>, x: T, y: T)
    ensures a + [x] == b + [y] ==> a == b
  {
    if a + [x] == b + [y] {
      assert a == (a + [x])[..|a|];
      assert b == (b + [y])[..|b|];
    }
  }
}
