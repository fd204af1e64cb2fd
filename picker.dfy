/**
  The picker adapter: each window becomes one line "<i> [tags] props", the
  lines go to the external picker, and the line the picker prints back is
  matched against them. The picker process itself is outside the model; its
  output is an input here.
 */
module Picker {
  import opened Text
  import opened Tags
  import opened Wmii

  const IndexOpen: string := "<"
  const IndexClose: string := ">"

  /** The picker line for the window w at position i. */
  function RenderItem(i: nat, w: Window): (line: string)
    ensures StartsWithIndex(line, i)
    ensures |w.props| <= |line| && line[|line| - |w.props|..] == w.props
  {
    var marker := IndexOpen + Dec(i) + IndexClose;
    var line := marker + (" [" + Join(w.tags, Sep) + "] " + w.props);
    assert line[..|marker|] == marker;
    line
  }

  /** The picker lines for wins, in order. */
  function Items(wins: seq<Window>): (items: seq<string>)
    ensures |items| == |wins|
  {
    seq(|wins|, i requires 0 <= i < |wins| => RenderItem(i, wins[i]))
  }

  /** Fill the slice of picker lines, one per window. */
  method RenderItems(wins: seq<Window>) returns (items: seq<string>)
    ensures items == Items(wins)
  {
    var a := new string[|wins|];
    for i := 0 to |wins|
      invariant forall k :: 0 <= k < i ==> a[k] == RenderItem(k, wins[k])
    {
      a[i] := RenderItem(i, wins[i]);
    }
    items := a[..];
  }

  /** The least index at which want occurs in items, or -1 when it does not
      occur. */
  function IndexOf(items: seq<string>, want: string): (i: int)
    ensures -1 <= i < |items|
    ensures i == -1 <==> want !in items
    ensures 0 <= i ==> items[i] == want && want !in items[..i]
  {
    if items == [] then -1
    else if items[0] == want then 0
    else
      var j := IndexOf(items[1..], want);
      assert items == [items[0]] + items[1..];
      if j == -1 then -1
      else
        assert items[..j + 1] == [items[0]] + items[1..][..j];
        j + 1
  }

  /** The index chosen by the picker output out: out without its last byte
      (the newline the picker ends its line with) matched against the items;
      -1 for an empty output or a line that matches nothing. */
  function ChoiceOf(items: seq<string>, out: string): (i: int)
    ensures -1 <= i < |items|
    ensures i >= 0 ==> out != [] && items[i] == out[..|out| - 1]
  {
    if |out| == 0 then -1 else IndexOf(items, out[..|out| - 1])
  }

  /** Match the picker's output against the items it was given. */
  method Choose(items: seq<string>, out: string) returns (sel: int)
    ensures sel == ChoiceOf(items, out)
  {
    if |out| > 0 {
      var want := out[..|out| - 1];
      for i := 0 to |items|
        invariant want !in items[..i]
      {
        if items[i] == want {
          return i;
        }
        assert items[..i + 1] == items[..i] + [items[i]];
      }
      assert items[..|items|] == items;
    }
    return -1;
  }

  /** s starts with the index marker of position i. */
  predicate StartsWithIndex(s: string, i: nat)
  {
    HasPrefix(s, IndexOpen + Dec(i) + IndexClose)
  }

  /** The index marker at the start of a line names one position only. */
  lemma IndexMarkerUnique(s: string, i: nat, j: nat)
    requires StartsWithIndex(s, i) && StartsWithIndex(s, j)
    ensures i == j
  {
    MarkerChars(s, i);
    MarkerChars(s, j);
    assert Dec(i) == s[1..|Dec(i)| + 1] == Dec(j);
    DecInjective(i, j);
  }

  /** A line that starts with the marker of position i holds the digits of i
      from its second character on, and its first '>' closes them. */
  lemma MarkerChars(s: string, i: nat)
    requires StartsWithIndex(s, i)
    ensures |s| >= |Dec(i)| + 2
    ensures s[1..|Dec(i)| + 1] == Dec(i)
    ensures Find(s, '>') == |Dec(i)| + 1
  {
    var d := Dec(i);
    var m := IndexOpen + d + IndexClose;
    assert s[..|m|] == m;
    var head := IndexOpen + d;
    assert s[..|d| + 1] == m[..|d| + 1] == head;
    assert s[|d| + 1] == m[|d| + 1] == '>';
    assert s[1..|d| + 1] == head[1..] == d;
    DecNoClose(i);
    assert '>' !in head;
    FindIs(s, '>', |d| + 1);
  }

  lemma DecNoClose(i: nat)
    ensures '>' !in Dec(i)
  {
    var d := Dec(i);
    forall k | 0 <= k < |d| ensures d[k] != '>' {
      assert '0' <= d[k] <= '9';
    }
  }

  /** A line and each of its prefixes long enough to hold the marker start
      with the marker of its position. */
  lemma RenderStartsWithIndex(i: nat, w: Window, n: nat)
    requires |Dec(i)| + 2 <= n <= |RenderItem(i, w)|
    ensures StartsWithIndex(RenderItem(i, w)[..n], i)
  {
    var m := IndexOpen + Dec(i) + IndexClose;
    assert RenderItem(i, w)[..n][..|m|] == RenderItem(i, w)[..|m|] == m;
  }

  /** Different positions render to different lines, whatever the windows. */
  lemma RenderDistinct(i: nat, w: Window, j: nat, v: Window)
    requires RenderItem(i, w) == RenderItem(j, v)
    ensures i == j
  {
    var s := RenderItem(i, w);
    RenderStartsWithIndex(i, w, |s|);
    RenderStartsWithIndex(j, v, |s|);
    assert s[..|s|] == s;
    IndexMarkerUnique(s, i, j);
  }

  /** Picking a line: when the picker prints back the line of window i
      followed by a newline, the choice is i. */
  lemma PickRoundTrip(wins: seq<Window>, i: nat)
    requires i < |wins|
    ensures ChoiceOf(Items(wins), RenderItem(i, wins[i]) + "\n") == i
  {
    var items := Items(wins);
    var out := RenderItem(i, wins[i]) + "\n";
    assert out[..|out| - 1] == items[i];
    var r := ChoiceOf(items, out);
    assert r >= 0;
    RenderDistinct(r, wins[r], i, wins[i]);
  }

  /** The last byte of the output is dropped unconditionally, so a line
      printed back without its newline matches nothing. */
  lemma PickWithoutNewline(wins: seq<Window>, i: nat)
    requires i < |wins|
    ensures ChoiceOf(Items(wins), RenderItem(i, wins[i])) == -1
  {
    var items := Items(wins);
    var out := RenderItem(i, wins[i]);
    var r := ChoiceOf(items, out);
    if r >= 0 {
      var want := out[..|out| - 1];
      assert items[r] == want;
      RenderStartsWithIndex(i, wins[i], |out| - 1);
      RenderStartsWithIndex(r, wins[r], |items[r]|);
      assert items[r][..|items[r]|] == items[r];
      IndexMarkerUnique(want, i, r);
      assert false;
    }
  }

  /** Empty output, as from a cancelled picker, selects nothing. */
  lemma PickNothing(items: seq<string>)
    ensures ChoiceOf(items, "") == -1
  {
  }

  /** The two windows (tags x, props P1) and (no tags, props P2). */
  lemma RenderExample(a: string, b: string)
    ensures Items([Window(a, "P1", ["x"]), Window(b, "P2", [])]) == ["<0> [x] P1", "<1> [] P2"]
  {
    RenderFirstExample(a);
    RenderSecondExample(b);
  }

  lemma RenderFirstExample(a: string)
    ensures RenderItem(0, Window(a, "P1", ["x"])) == "<0> [x] P1"
  {
    assert Dec(0) == "0";
    assert Join(["x"], Sep) == "x";
  }

  lemma RenderSecondExample(b: string)
    ensures RenderItem(1, Window(b, "P2", [])) == "<1> [] P2"
  {
    assert Dec(1) == "1";
    assert Join([], Sep) == "";
  }
}
