/**
 * Whitespace splitting and the space-separated, '#'-terminated frame layout
 * shared by the motion client and the mock server.
 */
module Text {

  /** Python's `bytes.split()` splits on ASCII whitespace; `str.split()` on Unicode whitespace. */
  datatype Whitespace = Ascii | Unicode

  predicate IsSpace(c: char, ws: Whitespace) {
    var n := c as int;
    match ws
    case Ascii => n == 0x20 || 0x09 <= n <= 0x0D
    case Unicode =>
      n == 0x20 || 0x09 <= n <= 0x0D || 0x1C <= n <= 0x1F || n == 0x85 || n == 0xA0
      || n == 0x1680 || 0x2000 <= n <= 0x200A || n == 0x2028 || n == 0x2029
      || n == 0x202F || n == 0x205F || n == 0x3000
  }

  predicate NoSpace(s: string, ws: Whitespace) {
    forall i :: 0 <= i < |s| ==> !IsSpace(s[i], ws)
  }

  predicate AllSpace(s: string, ws: Whitespace) {
    forall i :: 0 <= i < |s| ==> IsSpace(s[i], ws)
  }

  /** What a split yields: a non-empty run of non-whitespace characters. */
  predicate IsWord(t: string, ws: Whitespace) {
    |t| > 0 && NoSpace(t, ws)
  }

  predicate AllWords(ts: seq<string>, ws: Whitespace) {
    forall i :: 0 <= i < |ts| ==> IsWord(ts[i], ws)
  }

  /** Length of the leading run of non-whitespace characters of `s`. */
  function WordLength(s: string, ws: Whitespace): (n: nat)
    ensures n <= |s|
    ensures NoSpace(s[..n], ws)
    ensures n < |s| ==> IsSpace(s[n], ws)
  {
    if s == [] || IsSpace(s[0], ws) then 0
    else
      var n := 1 + WordLength(s[1..], ws);
      assert s[..n] == [s[0]] + s[1..][..n - 1];
      n
  }

  /** The tokens of `s`, as Python's argument-less `split()` returns them. */
  function Split(s: string, ws: Whitespace): (r: seq<string>)
    decreases |s|
  {
    if s == [] then []
    else if IsSpace(s[0], ws) then Split(s[1..], ws)
    else
      var n := WordLength(s, ws);
      [s[..n]] + Split(s[n..], ws)
  }

  /** Splitting yields words only, and nothing exactly when the text is all whitespace. */
  lemma {:induction false} SplitWords(s: string, ws: Whitespace)
    ensures AllWords(Split(s, ws), ws)
    ensures Split(s, ws) == [] <==> AllSpace(s, ws)
    decreases |s|
  {
    if s == [] {
    } else if IsSpace(s[0], ws) {
      SplitWords(s[1..], ws);
      if AllSpace(s[1..], ws) {
        forall i | 0 <= i < |s| ensures IsSpace(s[i], ws) {
          if i > 0 { assert s[i] == s[1..][i - 1]; }
        }
      } else {
        var i :| 0 <= i < |s[1..]| && !IsSpace(s[1..][i], ws);
        assert s[i + 1] == s[1..][i];
      }
    } else {
      var n := WordLength(s, ws);
      SplitWords(s[n..], ws);
      var r := Split(s[n..], ws);
      assert Split(s, ws) == [s[..n]] + r;
      forall i | 0 <= i < |[s[..n]] + r| ensures IsWord(([s[..n]] + r)[i], ws) {
        if i > 0 { assert ([s[..n]] + r)[i] == r[i - 1]; }
      }
    }
  }

  /** Every token followed by one space: the body "t1 t2 ... tn " of a frame. */
  function JoinSpaced(ts: seq<string>): string {
    if ts == [] then [] else JoinSpaced(ts[..|ts| - 1]) + ts[|ts| - 1] + " "
  }

  /** A complete wire frame: the tokens, each followed by a space, then the terminator '#'. */
  function Frame(ts: seq<string>): (f: string)
    ensures |f| > 0 && f[|f| - 1] == '#'
    ensures f[..|f| - 1] == JoinSpaced(ts)
  {
    JoinSpaced(ts) + "#"
  }

  lemma {:induction false} JoinSpacedCons(t: string, ts: seq<string>)
    ensures JoinSpaced([t] + ts) == t + " " + JoinSpaced(ts)
    decreases |ts|
  {
    if ts == [] {
      assert ([t] + ts)[..0] == [];
    } else {
      var ts' := ts[..|ts| - 1];
      assert ([t] + ts)[..|ts|] == [t] + ts';
      JoinSpacedCons(t, ts');
    }
  }

  lemma {:induction false} JoinSpacedSnoc(ts: seq<string>, t: string)
    ensures JoinSpaced(ts + [t]) == JoinSpaced(ts) + t + " "
  {
    assert (ts + [t])[..|ts|] == ts;
  }

  /** Regrouping the pieces of a message built left to right. */
  lemma Regroup(p: string, j: string, t: string, sep: string)
    ensures p + j + t + sep == p + (j + t + sep)
    ensures p + t + sep == p + (t + sep)
  {
  }

  /** Joining one more token of a list appends it and a space. */
  lemma JoinSpacedPrefix(ts: seq<string>, i: nat)
    requires i < |ts|
    ensures JoinSpaced(ts[..i + 1]) == JoinSpaced(ts[..i]) + ts[i] + " "
  {
    assert ts[..i + 1][..i] == ts[..i];
  }

  /** Joining two token lists one after the other is joining their concatenation. */
  lemma {:induction false} JoinSpacedAppend(a: seq<string>, b: seq<string>)
    ensures JoinSpaced(a + b) == JoinSpaced(a) + JoinSpaced(b)
    decreases |b|
  {
    if b == [] {
      assert a + b == a;
    } else {
      var b' := b[..|b| - 1];
      assert (a + b)[..|a + b| - 1] == a + b';
      JoinSpacedAppend(a, b');
    }
  }

  lemma {:induction false} WordLengthOfWord(t: string, rest: string, ws: Whitespace)
    requires NoSpace(t, ws)
    requires rest == [] || IsSpace(rest[0], ws)
    ensures WordLength(t + rest, ws) == |t|
    decreases |t|
  {
    if t != [] {
      assert (t + rest)[1..] == t[1..] + rest;
      WordLengthOfWord(t[1..], rest, ws);
    }
  }

  /** Splitting a frame body gives back exactly the tokens it was built from. */
  lemma {:induction false} SplitJoinSpaced(ts: seq<string>, ws: Whitespace)
    requires AllWords(ts, ws)
    ensures Split(JoinSpaced(ts), ws) == ts
    decreases |ts|
  {
    if ts != [] {
      var t, rest := ts[0], ts[1..];
      assert ts == [t] + rest;
      JoinSpacedCons(t, rest);
      var s := t + (" " + JoinSpaced(rest));
      assert JoinSpaced(ts) == s;
      WordLengthOfWord(t, " " + JoinSpaced(rest), ws);
      assert s[..|t|] == t;
      assert s[|t|..] == " " + JoinSpaced(rest);
      assert (" " + JoinSpaced(rest))[1..] == JoinSpaced(rest);
      SplitJoinSpaced(rest, ws);
    }
  }
}
