/** String and sequence helpers that stand for the JavaScript built-ins the
    source relies on: `+=` concatenation, `Array.prototype.join`,
    `String.prototype.split` on one character, and `Math.min`. */
module Strings {

  function Min(a: int, b: int): (m: int)
    ensures m <= a && m <= b && (m == a || m == b)
  {
    if a <= b then a else b
  }

  /** The concatenation of `parts`, built left to right as a `+=` loop does. */
  function Concat(parts: seq<string>): string
  {
    if parts == [] then "" else Concat(parts[..|parts| - 1]) + parts[|parts| - 1]
  }

  /** Concatenating one more part appends it. */
  lemma ConcatSnoc(parts: seq<string>, p: string)
    ensures Concat(parts + [p]) == Concat(parts) + p
  {
    assert (parts + [p])[..|parts|] == parts;
  }

  /** Concatenating a part in front prepends it. */
  lemma {:induction false} ConcatCons(p: string, parts: seq<string>)
    ensures Concat([p] + parts) == p + Concat(parts)
  {
    if parts == [] {
      assert [p] + parts == [p];
      assert [p][..0] == [];
    } else {
      var init := parts[..|parts| - 1];
      assert ([p] + parts)[..|parts|] == [p] + init;
      ConcatCons(p, init);
    }
  }

  /** Every part sits, in order, in the concatenation: part `k` starts where
      the concatenation of the parts before it ends. */
  lemma {:induction false} ConcatHasPart(parts: seq<string>, k: nat)
    requires k < |parts|
    ensures |Concat(parts[..k])| + |parts[k]| <= |Concat(parts)|
    ensures Concat(parts)[|Concat(parts[..k])|..|Concat(parts[..k])| + |parts[k]|] == parts[k]
  {
    var n := |parts|;
    var init := parts[..n - 1];
    if k == n - 1 {
      assert init == parts[..k];
    } else {
      assert init[..k] == parts[..k];
      assert init[k] == parts[k];
      ConcatHasPart(init, k);
      var c := Concat(init);
      var o := |Concat(parts[..k])|;
      assert Concat(parts) == c + parts[n - 1];
      assert (c + parts[n - 1])[o..o + |parts[k]|] == c[o..o + |parts[k]|];
    }
  }

  /** The same after a header: part `k` follows the header and the parts
      before it. */
  lemma HeadedConcatHasPart(h: string, parts: seq<string>, k: nat)
    requires k < |parts|
    ensures |h| + |Concat(parts[..k])| + |parts[k]| <= |h + Concat(parts)|
    ensures (h + Concat(parts))[|h| + |Concat(parts[..k])|..|h| + |Concat(parts[..k])| + |parts[k]|] == parts[k]
  {
    ConcatHasPart(parts, k);
    var c := Concat(parts);
    var o := |Concat(parts[..k])|;
    var n := |parts[k]|;
    assert (h + c)[|h| + o..|h| + o + n] == c[o..o + n];
  }

  /** `xs.join(sep)`: the empty list joins to "", one element to itself. */
  function Join(xs: seq<string>, sep: string): (r: string)
    ensures |xs| == 0 ==> r == ""
    ensures |xs| == 1 ==> r == xs[0]
  {
    if |xs| == 0 then ""
    else if |xs| == 1 then xs[0]
    else xs[0] + sep + Join(xs[1..], sep)
  }

  /** The joined text holds the pieces' own characters plus one separator
      between each neighbouring pair. */
  lemma {:induction false} JoinLength(xs: seq<string>, sep: string)
    ensures |xs| >= 1 ==> |Join(xs, sep)| == |Concat(xs)| + (|xs| - 1) * |sep|
  {
    if |xs| > 1 {
      JoinLength(xs[1..], sep);
      ConcatCons(xs[0], xs[1..]);
      assert [xs[0]] + xs[1..] == xs;
    }
  }

  /** `s.split(c)` for a one-character separator: the pieces between the
      occurrences of `c`; always at least one piece, and none contains `c`. */
  function Split(s: string, c: char): (pieces: seq<string>)
    ensures |pieces| >= 1
    ensures forall k :: 0 <= k < |pieces| ==> c !in pieces[k]
    ensures |pieces| - 1 == |s| - |RemoveAll(s, c)|
  {
    if s == [] then [""]
    else
      var rest := Split(s[1..], c);
      if s[0] == c then [""] + rest
      else [[s[0]] + rest[0]] + rest[1..]
  }

  /** `s` without its occurrences of `c`, used to count the pieces of a split. */
  function RemoveAll(s: string, c: char): (r: string)
    ensures |r| <= |s|
    ensures c !in r
  {
    if s == [] then "" else (if s[0] == c then "" else [s[0]]) + RemoveAll(s[1..], c)
  }

  /** Joining the pieces of a split with the separator gives back the string. */
  lemma {:induction false} JoinSplit(s: string, c: char)
    ensures Join(Split(s, c), [c]) == s
  {
    if s != [] {
      var rest := Split(s[1..], c);
      JoinSplit(s[1..], c);
      if s[0] == c {
        assert Split(s, c) == [""] + rest;
        assert ([""] + rest)[1..] == rest;
      } else {
        var pieces := Split(s, c);
        assert pieces[1..] == rest[1..];
        if |rest| > 1 {
          assert Join(rest, [c]) == rest[0] + [c] + Join(rest[1..], [c]);
        }
      }
    }
  }

  /** Splitting the join of separator-free pieces gives back the pieces. */
  lemma {:induction false} SplitJoin(pieces: seq<string>, c: char)
    requires |pieces| >= 1
    requires forall k :: 0 <= k < |pieces| ==> c !in pieces[k]
    ensures Split(Join(pieces, [c]), c) == pieces
  {
    if |pieces| == 1 {
      SplitPiece(pieces[0], c);
    } else {
      var tail := pieces[1..];
      SplitJoin(tail, c);
      SplitPrefix(pieces[0], Join(tail, [c]), c);
    }
  }

  lemma {:induction false} SplitPiece(p: string, c: char)
    requires c !in p
    ensures Split(p, c) == [p]
  {
    if p != [] {
      SplitPiece(p[1..], c);
      assert [p[0]] + p[1..] == p;
    }
  }

  lemma {:induction false} SplitPrefix(p: string, rest: string, c: char)
    requires c !in p
    ensures Split(p + [c] + rest, c) == [p] + Split(rest, c)
  {
    var s := p + [c] + rest;
    if p == [] {
      assert s[1..] == rest;
    } else {
      assert s[1..] == p[1..] + [c] + rest;
      SplitPrefix(p[1..], rest, c);
      assert [p[0]] + p[1..] == p;
    }
  }
}
