/**
 * The handful of `java.lang.String` operations the server relies on, stated over
 * `seq<char>`: `split` on a one-character delimiter, `replace`, `startsWith`,
 * `endsWith`, `contains` and `equalsIgnoreCase`.
 */
module Strings {

  /**
   * Every piece of `s` between occurrences of `c`, empty pieces included; this is
   * what `String.split` computes before it drops trailing empty strings.
   */
  function Pieces(s: string, c: char): (r: seq<string>)
    ensures |r| >= 1
    ensures forall i :: 0 <= i < |r| ==> c !in r[i]
    ensures |r| == 1 <==> c !in s
  {
    if s == [] then [""]
    else
      var rest := Pieces(s[1..], c);
      if s[0] == c then [""] + rest
      else [[s[0]] + rest[0]] + rest[1..]
  }

  /** The pieces written back with `c` between each two of them. */
  function Join(ps: seq<string>, c: char): string
  {
    if ps == [] then ""
    else if |ps| == 1 then ps[0]
    else ps[0] + [c] + Join(ps[1..], c)
  }

  /** Joining the pieces of `s` gives `s` back. */
  lemma {:induction false} JoinPieces(s: string, c: char)
    ensures Join(Pieces(s, c), c) == s
  {
    if s != [] {
      var rest := Pieces(s[1..], c);
      JoinPieces(s[1..], c);
      if s[0] != c {
        if |rest| == 1 {
          assert Pieces(s, c) == [[s[0]] + rest[0]];
        } else {
          assert Pieces(s, c)[1..] == rest[1..];
        }
      }
    }
  }

  /** Cutting a join of delimiter-free pieces gives the pieces back. */
  lemma {:induction false} PiecesJoin(ps: seq<string>, c: char)
    requires |ps| >= 1
    requires forall i :: 0 <= i < |ps| ==> c !in ps[i]
    ensures Pieces(Join(ps, c), c) == ps
  {
    if |ps| == 1 {
      PiecesOfPlain(ps[0], c);
    } else {
      PiecesJoin(ps[1..], c);
      PiecesCons(ps[0], Join(ps[1..], c), c);
      assert [ps[0]] + ps[1..] == ps;
    }
  }

  /** A string without the delimiter is a single piece. */
  lemma {:induction false} PiecesOfPlain(s: string, c: char)
    requires c !in s
    ensures Pieces(s, c) == [s]
  {
    if s != [] {
      PiecesOfPlain(s[1..], c);
      assert [s[0]] + s[1..] == s;
    }
  }

  /** The pieces of `a + [c] + t`, when `a` has no `c`, are `a` followed by those of `t`. */
  lemma {:induction false} PiecesCons(a: string, t: string, c: char)
    requires c !in a
    ensures Pieces(a + [c] + t, c) == [a] + Pieces(t, c)
  {
    if a == [] {
      assert a + [c] + t == [c] + t;
      assert ([c] + t)[1..] == t;
    } else {
      var s := a + [c] + t;
      assert s[0] == a[0] && s[1..] == a[1..] + [c] + t;
      PiecesCons(a[1..], t, c);
      assert [a[0]] + a[1..] == a;
    }
  }

  /** `ps` without its trailing empty strings. */
  function DropTrailingEmpty(ps: seq<string>): (r: seq<string>)
    ensures |r| <= |ps| && r == ps[..|r|]
    ensures r == [] || r[|r| - 1] != ""
    ensures forall i :: |r| <= i < |ps| ==> ps[i] == ""
  {
    if ps == [] then []
    else if ps[|ps| - 1] == "" then DropTrailingEmpty(ps[..|ps| - 1])
    else ps
  }

  /**
   * `s.split(c)` in Java for a delimiter that is one ordinary character: when `c`
   * does not occur the result is `[s]` (even for the empty string), otherwise the
   * pieces of `s` with the trailing empty strings removed.
   */
  function Split(s: string, c: char): (r: seq<string>)
    ensures c !in s ==> r == [s]
    ensures c in s ==> |r| <= |Pieces(s, c)| && r == Pieces(s, c)[..|r|] && (r == [] || r[|r| - 1] != "")
    ensures c in s ==> forall i :: |r| <= i < |Pieces(s, c)| ==> Pieces(s, c)[i] == ""
    ensures forall i :: 0 <= i < |r| ==> c !in r[i]
  {
    if c !in s then [s] else DropTrailingEmpty(Pieces(s, c))
  }

  /** Two delimiter-free tokens, the second non-empty, split back into exactly those tokens. */
  lemma SplitPair(a: string, b: string, c: char)
    requires c !in a && c !in b && b != ""
    ensures Split(a + [c] + b, c) == [a, b]
  {
    var s := a + [c] + b;
    assert s[|a|] == c;
    assert Join([a, b], c) == s by {
      assert [a, b][1..] == [b];
    }
    PiecesJoin([a, b], c);
  }

  /** Three delimiter-free tokens, the last non-empty, split back into exactly those tokens. */
  lemma SplitTriple(a: string, b: string, v: string, c: char)
    requires c !in a && c !in b && c !in v && v != ""
    ensures Split(a + [c] + b + [c] + v, c) == [a, b, v]
  {
    var s := a + [c] + b + [c] + v;
    assert s[|a|] == c;
    assert Join([a, b, v], c) == s by {
      assert [a, b, v][1..] == [b, v];
      assert [b, v][1..] == [v];
      assert Join([b, v], c) == b + [c] + v;
      assert Join([a, b, v], c) == a + [c] + (b + [c] + v);
    }
    PiecesJoin([a, b, v], c);
  }

  /** Two tokens followed by a dangling delimiter split into the two tokens: the empty piece is dropped. */
  lemma SplitPairDangling(a: string, b: string, c: char)
    requires c !in a && c !in b && b != ""
    ensures Split(a + [c] + b + [c], c) == [a, b]
  {
    var s := a + [c] + b + [c];
    assert s[|a|] == c;
    assert Join([a, b, ""], c) == s by {
      assert [a, b, ""][1..] == [b, ""];
      assert [b, ""][1..] == [""];
      assert Join([b, ""], c) == b + [c] + "";
      assert Join([a, b, ""], c) == a + [c] + (b + [c] + "");
    }
    PiecesJoin([a, b, ""], c);
    assert [a, b, ""][..2] == [a, b];
  }

  /** A token followed only by the delimiter splits into fewer than two tokens. */
  lemma SplitDangling(a: string, c: char)
    requires c !in a
    ensures |Split(a + [c], c)| < 2
  {
    var s := a + [c];
    assert s[|a|] == c;
    assert a + [c] + "" == s;
    assert Join([a, ""], c) == s by {
      assert [a, ""][1..] == [""];
    }
    PiecesJoin([a, ""], c);
  }

  /**
   * When `s.split(c)` has two tokens or more, `s` begins with the first token, a `c`,
   * and the second token, and if anything follows it starts with another `c`: the first
   * token is the text before the first `c`, the second the text between the first and
   * the second `c`.
   */
  lemma SplitFields(s: string, c: char)
    requires |Split(s, c)| >= 2
    ensures var t := Split(s, c);
      var n := |t[0]| + 1 + |t[1]|;
      && n <= |s|
      && s[..|t[0]|] == t[0]
      && s[|t[0]|] == c
      && s[|t[0]| + 1 .. n] == t[1]
      && (n < |s| ==> s[n] == c)
  {
    var t := Split(s, c);
    var p := Pieces(s, c);
    assert p[0] == t[0] && p[1] == t[1];
    JoinPieces(s, c);
    var tail := Join(p[1..], c);
    assert s == p[0] + [c] + tail;
    if |p| == 2 {
      assert tail == p[1];
    } else {
      assert p[1..][1..] == p[2..];
      assert tail == p[1] + [c] + Join(p[2..], c);
    }
  }

  predicate StartsWith(s: string, prefix: string)
  {
    |prefix| <= |s| && s[..|prefix|] == prefix
  }

  predicate EndsWith(s: string, suffix: string)
  {
    |suffix| <= |s| && s[|s| - |suffix|..] == suffix
  }

  /** `t` occurs in `s` starting at index `i`. */
  predicate OccursAt(s: string, t: string, i: int)
  {
    0 <= i <= |s| - |t| && s[i..i + |t|] == t
  }

  /** `s.contains(t)`: `t` occurs in `s` at some position. */
  ghost predicate Contains(s: string, t: string)
  {
    exists i :: OccursAt(s, t, i)
  }

  lemma ContainsMiddle(a: string, t: string, b: string)
    ensures Contains(a + t + b, t)
  {
    var s := a + t + b;
    assert OccursAt(s, t, |a|);
  }

  /** `s.replace(from, to)` for one-character strings: every `from` becomes `to`. */
  function ReplaceChar(s: string, from: char, to: char): string
  {
    seq(|s|, i requires 0 <= i < |s| => if s[i] == from then to else s[i])
  }

  /**
   * `s.replace(target, "")`: the occurrences of `target` are found from left to
   * right, without overlap, and removed.
   */
  function RemoveAll(s: string, target: string): (r: string)
    requires target != ""
    ensures |r| <= |s|
    decreases |s|
  {
    if s == [] then []
    else if StartsWith(s, target) then RemoveAll(s[|target|..], target)
    else [s[0]] + RemoveAll(s[1..], target)
  }

  /** A string in which `target` does not occur is left unchanged. */
  lemma {:induction false} RemoveAllAbsent(s: string, target: string)
    requires target != ""
    ensures !Contains(s, target) ==> RemoveAll(s, target) == s
    decreases |s|
  {
    if s != [] && !Contains(s, target) {
      assert !StartsWith(s, target) by {
        if StartsWith(s, target) {
          assert OccursAt(s, target, 0);
        }
      }
      ContainsInTail(s, target);
      RemoveAllAbsent(s[1..], target);
      assert [s[0]] + s[1..] == s;
    }
  }

  /** An occurrence in the tail of `s` is an occurrence in `s`. */
  lemma ContainsInTail(s: string, t: string)
    requires s != []
    ensures Contains(s[1..], t) ==> Contains(s, t)
  {
    if Contains(s[1..], t) {
      var i :| OccursAt(s[1..], t, i);
      assert s[i + 1..i + 1 + |t|] == s[1..][i..i + |t|];
      assert OccursAt(s, t, i + 1);
    }
  }

  /** Java's `Character.toLowerCase` restricted to ASCII letters. */
  function ToLowerAscii(ch: char): char
  {
    if 'A' <= ch <= 'Z' then (ch as int + 32) as char else ch
  }

  /** `a.equalsIgnoreCase(b)` over ASCII letters. */
  function EqualsIgnoreCase(a: string, b: string): (r: bool)
    ensures a == b ==> r
    ensures r ==> |a| == |b|
  {
    |a| == |b| && forall i :: 0 <= i < |a| ==> ToLowerAscii(a[i]) == ToLowerAscii(b[i])
  }
}
