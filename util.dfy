/** Helpers shared by the model: an option type, the iteration order of a
    nested `for` loop, and ASCII lower-casing. */
module Util {

  datatype Option<+T> = None | Some(value: T)

  /** The iterations of a nested loop, outer index first:
      Flatten([r0, r1, ..., rn]) is r0 + r1 + ... + rn. */
  function Flatten<T>(rows: seq<seq<T>>): seq<T>
  {
    if rows == [] then [] else Flatten(rows[..|rows| - 1]) + rows[|rows| - 1]
  }

  /** Running one more outer iteration appends that row. */
  lemma FlattenSnoc<T>(rows: seq<seq<T>>, i: nat)
    requires i < |rows|
    ensures Flatten(rows[..i + 1]) == Flatten(rows[..i]) + rows[i]
  {
    assert rows[..i + 1][..i] == rows[..i];
  }

  /** The iterations of the first i outer rounds come first. */
  lemma {:induction false} FlattenPrefix<T>(rows: seq<seq<T>>, i: nat)
    requires i <= |rows|
    ensures Flatten(rows[..i]) <= Flatten(rows)
  {
    if i == |rows| {
      assert rows[..i] == rows;
    } else {
      var init := rows[..|rows| - 1];
      FlattenPrefix(init, i);
      assert init[..i] == rows[..i];
    }
  }

  /** Cutting a + b + c inside b keeps a and the front of b. */
  lemma PrefixInMiddle<T>(a: seq<T>, b: seq<T>, c: seq<T>, m: nat)
    requires m <= |b|
    ensures (a + b + c)[..|a| + m] == a + b[..m]
  {
  }

  /** Inner step j of outer round i is iteration |Flatten(rows[..i])| + j,
      and the round ends |rows[i]| iterations later. */
  lemma FlattenAt<T>(rows: seq<seq<T>>, i: nat, j: nat)
    requires i < |rows| && j < |rows[i]|
    ensures |Flatten(rows[..i])| + j < |Flatten(rows)|
    ensures Flatten(rows)[|Flatten(rows[..i])| + j] == rows[i][j]
  {
    FlattenSnoc(rows, i);
    FlattenPrefix(rows, i + 1);
  }

  /** Every iteration belongs to some outer round. */
  lemma {:induction false} FlattenMember<T>(rows: seq<seq<T>>, x: T)
    requires x in Flatten(rows)
    ensures exists i :: 0 <= i < |rows| && x in rows[i]
  {
    var n := |rows| - 1;
    if x in rows[n] {
    } else {
      var init := rows[..n];
      FlattenMember(init, x);
      var i :| 0 <= i < |init| && x in init[i];
      assert x in rows[i];
    }
  }

  /** With rows of equal width w, iteration number i * w + j is inner step j
      of outer round i: the loop runs outer-major. */
  lemma {:induction false} FlattenIndex<T>(rows: seq<seq<T>>, w: nat, i: nat, j: nat)
    requires forall r :: r in rows ==> |r| == w
    requires i < |rows| && j < w
    ensures |Flatten(rows)| == |rows| * w
    ensures i * w + j < |Flatten(rows)| && Flatten(rows)[i * w + j] == rows[i][j]
  {
    FlattenLength(rows, w);
    var n := |rows| - 1;
    var init := rows[..n];
    assert forall r :: r in init ==> r in rows;
    FlattenLength(init, w);
    MulSucc(n, w);
    if i < n {
      FlattenIndex(init, w, i, j);
      assert rows[i] == init[i];
    } else {
      assert i * w + j == |Flatten(init)| + j;
    }
  }

  lemma {:induction false} FlattenLength<T>(rows: seq<seq<T>>, w: nat)
    requires forall r :: r in rows ==> |r| == w
    ensures |Flatten(rows)| == |rows| * w
  {
    if rows != [] {
      var n := |rows| - 1;
      var init := rows[..n];
      assert |Flatten(init)| == n * w by {
        assert forall r :: r in init ==> r in rows;
        FlattenLength(init, w);
      }
      assert |rows[n]| == w by {
        assert rows[n] in rows;
      }
      assert |Flatten(rows)| == |Flatten(init)| + |rows[n]|;
      MulSucc(n, w);
    }
  }

  lemma MulSucc(n: nat, w: nat)
    ensures (n + 1) * w == n * w + w
  {
  }

  /** ASCII lower-casing of one character; other characters are kept. */
  function LowerChar(c: char): char
  {
    if 'A' <= c <= 'Z' then (c as int + ('a' as int - 'A' as int)) as char else c
  }

  /** strings.ToLower, restricted to ASCII letters. */
  function ToLower(s: string): (r: string)
    ensures |r| == |s|
    ensures forall i :: 0 <= i < |s| ==> r[i] == LowerChar(s[i])
  {
    if s == [] then [] else [LowerChar(s[0])] + ToLower(s[1..])
  }
}
