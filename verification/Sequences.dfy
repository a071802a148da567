/** Small facts about sequences that the solver is better told than left to find. */
module Sequences {

  /** The last element of the second part, set apart. */
  lemma LastApart<T>(xs: seq<T>, ys: seq<T>)
    requires |ys| > 0
    ensures var init, last := ys[..|ys| - 1], ys[|ys| - 1];
      ys == init + [last] && xs + ys == (xs + init) + [last] && (xs + ys)[..|xs + init|] == xs + init
  {
  }

  lemma Associative<T>(a: seq<T>, b: seq<T>, c: seq<T>)
    ensures (a + b) + c == a + (b + c)
  {
  }

  /** Taking a first part of what is left, and moving it over. */
  lemma NextSlice<T>(rows: seq<T>, m: nat, next: seq<T>)
    requires m <= |rows| && |next| > 0 && next <= rows[m..]
    ensures m + |next| <= |rows| && rows[..m] + next == rows[..m + |next|]
    ensures next[|next| - 1] == rows[m + |next| - 1]
  {
    assert next == rows[m..][..|next|];
  }

  /** The pieces fill the text one behind the other: piece i lies between ends[i] and ends[i + 1]. */
  ghost predicate EndToEnd<T>(text: seq<T>, pieces: seq<seq<T>>, ends: seq<nat>) {
    && |ends| == |pieces| + 1 && ends[0] == 0 && ends[|pieces|] == |text|
    && forall i {:trigger pieces[i]} | 0 <= i < |pieces| ::
         ends[i] + |pieces[i]| == ends[i + 1] <= |text| && text[ends[i]..ends[i + 1]] == pieces[i]
  }

  lemma EndToEndAppend<T>(text: seq<T>, pieces: seq<seq<T>>, ends: seq<nat>, piece: seq<T>)
    requires EndToEnd(text, pieces, ends)
    ensures EndToEnd(text + piece, pieces + [piece], ends + [|text| + |piece|])
  {
    var all, ends' := pieces + [piece], ends + [|text| + |piece|];
    forall i {:trigger all[i]} | 0 <= i < |all|
      ensures ends'[i] + |all[i]| == ends'[i + 1] <= |text + piece| && (text + piece)[ends'[i]..ends'[i + 1]] == all[i]
    {
      if i < |pieces| {
        assert (text + piece)[ends[i]..ends[i + 1]] == text[ends[i]..ends[i + 1]];
      }
    }
  }

  /** The pieces determine the text. */
  lemma {:induction false} EndToEndUnique<T>(a: seq<T>, ends: seq<nat>, b: seq<T>, ends': seq<nat>, pieces: seq<seq<T>>)
    requires EndToEnd(a, pieces, ends) && EndToEnd(b, pieces, ends')
    ensures a == b
    decreases |pieces|
  {
    if |pieces| > 0 {
      var n := |pieces| - 1;
      EndToEndInit(a, pieces, ends);
      EndToEndInit(b, pieces, ends');
      EndToEndUnique(a[..ends[n]], ends[..|pieces|], b[..ends'[n]], ends'[..|pieces|], pieces[..n]);
      assert a == a[..ends[n]] + a[ends[n]..] && b == b[..ends'[n]] + b[ends'[n]..];
    }
  }

  lemma EndToEndInit<T>(text: seq<T>, pieces: seq<seq<T>>, ends: seq<nat>)
    requires EndToEnd(text, pieces, ends) && |pieces| > 0
    ensures ends[|pieces| - 1] + |pieces[|pieces| - 1]| == |text|
    ensures text[ends[|pieces| - 1]..] == pieces[|pieces| - 1]
    ensures EndToEnd(text[..ends[|pieces| - 1]], pieces[..|pieces| - 1], ends[..|pieces|])
  {
    var n := |pieces| - 1;
    assert ends[n] + |pieces[n]| == ends[n + 1];
    var init, before := text[..ends[n]], pieces[..n];
    forall i {:trigger before[i]} | 0 <= i < n
      ensures ends[i] + |before[i]| == ends[i + 1] <= |init| && init[ends[i]..ends[i + 1]] == before[i]
    {
      assert before[i] == pieces[i];
      EndsAscend(text, pieces, ends, i + 1, n);
    }
  }

  lemma {:induction false} EndsAscend<T>(text: seq<T>, pieces: seq<seq<T>>, ends: seq<nat>, i: nat, n: nat)
    requires EndToEnd(text, pieces, ends) && i <= n <= |pieces|
    ensures ends[i] <= ends[n]
    decreases n
  {
    if i < n {
      EndsAscend(text, pieces, ends, i, n - 1);
      assert ends[n - 1] + |pieces[n - 1]| == ends[n];
    }
  }

  lemma EndToEndPrepend<T>(piece: seq<T>, text: seq<T>, pieces: seq<seq<T>>, ends: seq<nat>)
    requires EndToEnd(text, pieces, ends)
    ensures EndToEnd(piece + text, [piece] + pieces, [0] + seq(|ends|, i requires 0 <= i < |ends| => |piece| + ends[i]))
  {
    var all, ends' := [piece] + pieces, [0] + seq(|ends|, i requires 0 <= i < |ends| => |piece| + ends[i]);
    forall i {:trigger all[i]} | 0 <= i < |all|
      ensures ends'[i] + |all[i]| == ends'[i + 1] <= |piece + text| && (piece + text)[ends'[i]..ends'[i + 1]] == all[i]
    {
      if i > 0 {
        assert all[i] == pieces[i - 1];
        assert (piece + text)[ends'[i]..ends'[i + 1]] == text[ends[i - 1]..ends[i]];
      }
    }
  }

  /** Each text with the separator behind it. */
  function Terminated<T>(texts: seq<seq<T>>, sep: T): (pieces: seq<seq<T>>)
    ensures |pieces| == |texts| && forall i | 0 <= i < |texts| :: pieces[i] == texts[i] + [sep]
  {
    seq(|texts|, i requires 0 <= i < |texts| => texts[i] + [sep])
  }
}
