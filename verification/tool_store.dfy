/** The client's tool settings (`client/src/store/tool-store.ts`): the
    active tool, the font family, and a most-recent-first list of colours
    without repeats, capped at eight entries. */
module ToolStore {

  const MaxRecentColors: nat := 8

  datatype ToolState = ToolState(activeTool: string, fontFamily: string, recentColors: seq<string>)

  /** The store as first created. */
  const Initial := ToolState("pen", "sans-serif", [])

  /** No colour occurs twice. */
  ghost predicate NoRepeats(s: seq<string>) {
    forall i, j :: 0 <= i < j < |s| ==> s[i] != s[j]
  }

  /** `s` with every occurrence of `c` dropped, order kept. */
  function Without(s: seq<string>, c: string): (r: seq<string>)
    ensures forall x :: x in r <==> x in s && x != c
    ensures |r| <= |s|
    ensures multiset(r) == multiset(s)[c := 0]
  {
    if |s| == 0 then []
    else
      assert s == [s[0]] + s[1..];
      if s[0] == c then Without(s[1..], c)
      else [s[0]] + Without(s[1..], c)
  }

  /** Filtering a concatenation filters each part and keeps them in order;
      with `Without([x], c)` being `[x]` or `[]`, this pins down the relative
      order of the entries that remain. */
  lemma {:induction false} WithoutAppend(a: seq<string>, b: seq<string>, c: string)
    ensures Without(a + b, c) == Without(a, c) + Without(b, c)
    decreases |a|
  {
    if |a| == 0 {
      assert a + b == b;
    } else {
      assert (a + b)[0] == a[0] && (a + b)[1..] == a[1..] + b;
      WithoutAppend(a[1..], b, c);
    }
  }

  /** Dropping a colour from a list without repeats leaves one without repeats. */
  lemma {:induction false} WithoutNoRepeats(s: seq<string>, c: string)
    requires NoRepeats(s)
    ensures NoRepeats(Without(s, c))
    decreases |s|
  {
    if |s| > 0 {
      WithoutNoRepeats(s[1..], c);
      if s[0] != c {
        var w := Without(s[1..], c);
        assert s[0] !in s[1..];
        assert s[0] !in w;
        var r := [s[0]] + w;
        forall i, j | 0 <= i < j < |r| ensures r[i] != r[j] {
          if i > 0 {
            assert r[i] == w[i - 1] && r[j] == w[j - 1];
          } else {
            assert r[j] in w;
          }
        }
      }
    }
  }

  /** `setActiveTool`: only the active tool changes. */
  function SetActiveTool(t: ToolState, tool: string): (r: ToolState)
    ensures r.activeTool == tool
    ensures r.fontFamily == t.fontFamily && r.recentColors == t.recentColors
  {
    t.(activeTool := tool)
  }

  /** `addRecentColor`: `color` moves to the front (once), the others keep
      their order, and the list is cut to eight. */
  function AddRecentColor(t: ToolState, color: string): (r: ToolState)
    ensures |r.recentColors| <= MaxRecentColors
    ensures |r.recentColors| > 0 && r.recentColors[0] == color
    ensures forall i :: 1 <= i < |r.recentColors| ==> r.recentColors[i] != color
    ensures |r.recentColors| == if |Without(t.recentColors, color)| < MaxRecentColors
      then |Without(t.recentColors, color)| + 1 else MaxRecentColors
    ensures r.recentColors[1..] == Without(t.recentColors, color)[..|r.recentColors| - 1]
    ensures r.activeTool == t.activeTool && r.fontFamily == t.fontFamily
  {
    var w := Without(t.recentColors, color);
    var all := [color] + w;
    assert forall i :: 1 <= i < |all| ==> all[i] == w[i - 1] && w[i - 1] in w;
    t.(recentColors := if |all| <= MaxRecentColors then all else all[..MaxRecentColors])
  }

  /** One `addRecentColor` step keeps a list without repeats free of them. */
  lemma AddKeepsNoRepeats(t: ToolState, color: string)
    requires NoRepeats(t.recentColors)
    ensures NoRepeats(AddRecentColor(t, color).recentColors)
  {
    var r := AddRecentColor(t, color).recentColors;
    var w := Without(t.recentColors, color);
    WithoutNoRepeats(t.recentColors, color);
    forall i, j | 0 <= i < j < |r| ensures r[i] != r[j] {
      if i > 0 {
        assert r[i] == w[i - 1] && r[j] == w[j - 1];
      }
    }
  }

  /** Every colour in the list is either the one just added or one that was
      already there. */
  lemma AddKeepsOnlyKnown(t: ToolState, color: string)
    ensures forall x :: x in AddRecentColor(t, color).recentColors ==> x == color || x in t.recentColors
  {
    var r := AddRecentColor(t, color).recentColors;
    var w := Without(t.recentColors, color);
    forall x | x in r ensures x == color || x in t.recentColors {
      var i :| 0 <= i < |r| && r[i] == x;
      if i > 0 {
        assert r[i] == w[i - 1];
      }
    }
  }

  /** Adding the colour already at the front changes nothing. */
  lemma AddFrontIsIdempotent(t: ToolState, color: string)
    requires NoRepeats(t.recentColors) && |t.recentColors| <= MaxRecentColors
    requires |t.recentColors| > 0 && t.recentColors[0] == color
    ensures AddRecentColor(t, color) == t
  {
    var s := t.recentColors;
    WithoutAbsent(s[1..], color);
    assert s == [color] + s[1..];
  }

  /** Dropping a colour that does not occur changes nothing. */
  lemma {:induction false} WithoutAbsent(s: seq<string>, c: string)
    requires c !in s
    ensures Without(s, c) == s
    decreases |s|
  {
    if |s| > 0 {
      WithoutAbsent(s[1..], c);
      assert s == [s[0]] + s[1..];
    }
  }

  /** The store after adding `colors` one after another. */
  function AddAll(t: ToolState, colors: seq<string>): ToolState
    decreases |colors|
  {
    if |colors| == 0 then t else AddRecentColor(AddAll(t, colors[..|colors| - 1]), colors[|colors| - 1])
  }

  /** From the initial store, whatever colours are picked, the list never
      repeats a colour, holds at most eight, lists only picked colours, and
      the tool and font are never touched by it. */
  lemma {:induction false} ReachableRecentColors(colors: seq<string>)
    ensures var t := AddAll(Initial, colors);
      && NoRepeats(t.recentColors)
      && |t.recentColors| <= MaxRecentColors
      && (forall x :: x in t.recentColors ==> x in colors)
      && t.activeTool == Initial.activeTool && t.fontFamily == Initial.fontFamily
      && (|colors| > 0 ==> t.recentColors[0] == colors[|colors| - 1])
    decreases |colors|
  {
    if |colors| > 0 {
      var init := colors[..|colors| - 1];
      ReachableRecentColors(init);
      var t0 := AddAll(Initial, init);
      AddKeepsNoRepeats(t0, colors[|colors| - 1]);
      AddKeepsOnlyKnown(t0, colors[|colors| - 1]);
      forall x | x in init ensures x in colors {
        var i :| 0 <= i < |init| && init[i] == x;
        assert colors[i] == x;
      }
    }
  }
}
