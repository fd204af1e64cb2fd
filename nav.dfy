/**
  One navigation step: list the windows, let the picker choose one, make
  sure the chosen window has a tag, switch the view to the right tag when
  needed, and focus the window.

  The commands a step sends are described by Plan, the writes it would make
  if every write succeeded; Performed cuts a plan at the first write the
  manager refuses, because a failed write ends the step. Nothing done before
  the failure is undone.
 */
module Nav {
  import opened Text
  import opened Tags
  import opened Wmii
  import opened Picker

  /** The tag to show a window on: the visible tag when the window carries
      it, otherwise the window's first tag. */
  function Target(tags: seq<string>, ctag: string): (ntag: string)
    requires tags != []
    ensures ntag in tags
  {
    if ctag in tags then ctag else tags[0]
  }

  /** The resolution loop: start from the first tag and take the visible
      tag wherever the window carries it. */
  method Resolve(tags: seq<string>, ctag: string) returns (ntag: string)
    requires tags != []
    ensures ctag in tags ==> ntag == ctag
    ensures ctag !in tags ==> ntag == tags[0]
  {
    ntag := tags[0];
    for i := 0 to |tags|
      invariant ntag == if ctag in tags[..i] then ctag else tags[0]
    {
      assert tags[..i + 1] == tags[..i] + [tags[i]];
      if tags[i] == ctag {
        ntag := tags[i];
      }
    }
    assert tags[..|tags|] == tags;
  }

  /** The visible tag as the step uses it: a failure to read /ctl is
      ignored and gives the empty tag. */
  function NavTag(files: map<string, ReadResult>): (ctag: string)
    ensures !ReadFrom(files, CtlPath).ok ==> ctag == ""
    ensures ctag == [] || (!IsSpace(ctag[0]) && !IsSpace(ctag[|ctag| - 1]))
  {
    var ctl := ReadFrom(files, CtlPath);
    if ctl.ok then CurrentTagOf(ScanLines(ctl.data)) else ""
  }

  /** The window as the resolution sees it: an untagged window gets ctag. */
  function Ensured(w: Window, ctag: string): (e: Window)
    ensures e.id == w.id && e.props == w.props && e.tags != []
    ensures w.tags == [] ==> e.tags == [ctag]
    ensures w.tags != [] ==> e.tags == w.tags
  {
    if w.tags == [] then
      TaggedUntagged(w, ctag);
      Tagged(w, ctag)
    else w
  }

  /** The delta that gives an untagged window the visible tag; nothing for
      a tagged window. */
  function TagWrites(w: Window, ctag: string): seq<Write>
  {
    if w.tags == [] then [Write(TagsPath(w.id), AddTagPayload(ctag))] else []
  }

  /** The view switch for a window with the given tags; nothing when the
      resolved tag is the visible one. */
  function ViewWrites(tags: seq<string>, ctag: string): seq<Write>
    requires tags != []
  {
    var ntag := Target(tags, ctag);
    if ntag != ctag then [Write(CtlPath, ViewPayload(ntag))] else []
  }

  /** The command that focuses the window id. */
  function FocusWrite(id: string): Write
  {
    Write(SelCtlPath, SelectPayload(id))
  }

  /** The writes that show the tagged window e and focus it. */
  function Show(e: Window, ctag: string): seq<Write>
    requires e.tags != []
  {
    ViewWrites(e.tags, ctag) + [FocusWrite(e.id)]
  }

  /** The writes of a step that chose w while ctag is visible, in order. */
  function Plan(w: Window, ctag: string): (plan: seq<Write>)
    ensures 1 <= |plan| <= 2 && plan[|plan| - 1] == FocusWrite(w.id)
  {
    TagWrites(w, ctag) + Show(Ensured(w, ctag), ctag)
  }

  /** The writes of plan that take place: all of them up to, and not
      including, the first one to a refused path. */
  function Performed(plan: seq<Write>, refused: set<string>): seq<Write>
  {
    if plan == [] then []
    else if plan[0].path in refused then []
    else [plan[0]] + Performed(plan[1..], refused)
  }

  /** The performed writes are a prefix of the plan, none of them goes to a
      refused path, and the plan stops short only at a refused write. */
  lemma {:induction false} PerformedStopsAtRefusal(plan: seq<Write>, refused: set<string>)
    ensures var done := Performed(plan, refused);
      && done <= plan
      && (forall k :: 0 <= k < |done| ==> done[k].path !in refused)
      && (done == plan || plan[|done|].path in refused)
  {
    if plan != [] && plan[0].path !in refused {
      PerformedStopsAtRefusal(plan[1..], refused);
      var rest := Performed(plan[1..], refused);
      assert plan == [plan[0]] + plan[1..];
      assert Performed(plan, refused) == [plan[0]] + rest;
      if rest != plan[1..] {
        assert plan[|rest| + 1] == plan[1..][|rest|];
      }
    }
  }

  /** The window the picker output out chooses from the listing of names,
      or -1 for none. */
  function Selection(names: seq<string>, files: map<string, ReadResult>, out: string): (sel: int)
    ensures -1 <= sel < |Listing(names, files)|
  {
    ChoiceOf(Items(Listing(names, files)), out)
  }

  /** The navigation step. out is what the picker printed, or None when the
      picker could not be run or failed. The step fails when /client cannot
      be listed, when the picker fails, or at the first refused write; a
      choice of nothing ends it successfully with no write. */
  method Nav(wm: Session, out: Option<string>) returns (ok: bool)
    modifies wm
    ensures wm.clientDir.None? || out.None? ==> !ok && wm.log == old(wm.log)
    ensures wm.clientDir.Some? && out.Some? && Selection(wm.clientDir.value, wm.files, out.value) < 0
      ==> ok && wm.log == old(wm.log)
    ensures wm.clientDir.Some? && out.Some? && Selection(wm.clientDir.value, wm.files, out.value) >= 0
      ==> var w := Listing(wm.clientDir.value, wm.files)[Selection(wm.clientDir.value, wm.files, out.value)];
          var plan := Plan(w, NavTag(wm.files));
          wm.log == old(wm.log) + Performed(plan, wm.refused)
          && ok == (Performed(plan, wm.refused) == plan)
  {
    var windows, listed := wm.Windows();
    if !listed {
      return false;
    }
    if out.None? {
      return false;
    }
    var items := RenderItems(windows);
    var sel := Choose(items, out.value);
    if sel < 0 {
      return true;
    }

    var ctag, _ := wm.CurrentTag();
    ok := Apply(wm, windows[sel], ctag);
  }

  /** The commands for the chosen window win while ctag is visible: tag an
      untagged window, then show and focus it, stopping at the first failure. */
  method Apply(wm: Session, win: Window, ctag: string) returns (ok: bool)
    modifies wm
    ensures wm.log == old(wm.log) + Performed(Plan(win, ctag), wm.refused)
    ensures ok == (Performed(Plan(win, ctag), wm.refused) == Plan(win, ctag))
  {
    ghost var log0 := wm.log;
    var w, tagged := EnsureTagged(wm, win, ctag);
    PlanSplit(win, ctag, w);
    TwoPartPlan(Plan(win, ctag), TagWrites(win, ctag), Show(w, ctag), wm.refused);
    if !tagged {
      return false;
    }
    ok := ShowAndFocus(wm, w, ctag);
    assert wm.log == log0 + (TagWrites(win, ctag) + Performed(Show(w, ctag), wm.refused));
  }

  /** A plan made of a first and a second part is performed in full exactly
      when both parts are; a failure in the first part ends it there. */
  lemma TwoPartPlan(plan: seq<Write>, first: seq<Write>, second: seq<Write>, refused: set<string>)
    requires plan == first + second
    ensures Performed(first, refused) != first
      ==> Performed(plan, refused) == Performed(first, refused) && Performed(plan, refused) != plan
    ensures Performed(first, refused) == first
      ==> (Performed(plan, refused) == first + Performed(second, refused)
           && (Performed(plan, refused) == plan <==> Performed(second, refused) == second))
  {
    PerformedAppend(first, second, refused);
    if Performed(first, refused) != first {
      PerformedStopsAtRefusal(first, refused);
      assert |Performed(first, refused)| < |plan|;
    } else {
      AppendCancel(first, Performed(second, refused), second);
    }
  }

  lemma AppendCancel(a: seq<Write>, b: seq<Write>, c: seq<Write>)
    ensures a + b == a + c <==> b == c
  {
    if a + b == a + c {
      assert (a + b)[|a|..] == b && (a + c)[|a|..] == c;
    }
  }

  /** A plan is the tagging writes followed by the writes that show the
      tagged window. */
  lemma PlanSplit(win: Window, ctag: string, w: Window)
    requires w == Ensured(win, ctag)
    ensures w.tags != []
    ensures Plan(win, ctag) == TagWrites(win, ctag) + Show(w, ctag)
  {
  }

  /** Give an untagged window the visible tag; a tagged window is left as
      it is and nothing is written. */
  method EnsureTagged(wm: Session, win: Window, ctag: string) returns (w: Window, ok: bool)
    modifies wm
    ensures w == Ensured(win, ctag)
    ensures wm.log == old(wm.log) + Performed(TagWrites(win, ctag), wm.refused)
    ensures ok == (Performed(TagWrites(win, ctag), wm.refused) == TagWrites(win, ctag))
  {
    w, ok := win, true;
    if |w.tags| == 0 {
      w, ok := wm.AddTag(w, ctag);
    }
  }

  /** Switch the view when the resolved tag is not the visible one, then
      focus the window; a failed switch skips the focus. */
  method ShowAndFocus(wm: Session, w: Window, ctag: string) returns (ok: bool)
    requires w.tags != []
    modifies wm
    ensures wm.log == old(wm.log) + Performed(Show(w, ctag), wm.refused)
    ensures ok == (Performed(Show(w, ctag), wm.refused) == Show(w, ctag))
  {
    var ntag := Resolve(w.tags, ctag);
    var focus := [FocusWrite(w.id)];
    PerformedAppend(ViewWrites(w.tags, ctag), focus, wm.refused);
    if ntag != ctag {
      var viewed := wm.View(ntag);
      if !viewed {
        return false;
      }
    }
    ok := wm.SelectWindow(w.id);
  }

  /** A plan made of two parts: the second part runs only when all of the
      first took place. */
  lemma {:induction false} PerformedAppend(a: seq<Write>, b: seq<Write>, refused: set<string>)
    ensures Performed(a + b, refused)
      == if Performed(a, refused) == a then a + Performed(b, refused) else Performed(a, refused)
  {
    if a == [] {
      assert a + b == b;
    } else if a[0].path in refused {
      assert (a + b)[0] == a[0];
      assert Performed(a + b, refused) == [] == Performed(a, refused);
    } else {
      var tail := a[1..];
      assert (a + b)[0] == a[0] && (a + b)[1..] == tail + b;
      PerformedAppend(tail, b, refused);
      assert Performed(a + b, refused) == [a[0]] + Performed(tail + b, refused);
      assert Performed(a, refused) == [a[0]] + Performed(tail, refused);
      assert a == [a[0]] + tail;
      if Performed(tail, refused) == tail {
        assert Performed(a, refused) == a;
        assert Performed(a + b, refused) == [a[0]] + (tail + Performed(b, refused));
      } else {
        assert Performed(a, refused) != a;
      }
    }
  }

  /** Focusing the window is always the last write of a step, and the only
      write to the selected tag's control file. */
  lemma PlanEndsWithSelect(w: Window, ctag: string)
    ensures var plan := Plan(w, ctag);
      && plan != [] && plan[|plan| - 1] == Write(SelCtlPath, SelectPayload(w.id))
      && forall k :: 0 <= k < |plan| - 1 ==> plan[k].path != SelCtlPath
  {
  }

  /** The view is switched exactly when the resolved tag differs from the
      visible one, and then to the resolved tag. */
  lemma PlanViewIff(w: Window, ctag: string)
    ensures var plan := Plan(w, ctag); var ntag := Target(Ensured(w, ctag).tags, ctag);
      && ((exists k :: 0 <= k < |plan| && plan[k].path == CtlPath) <==> ntag != ctag)
      && forall k :: 0 <= k < |plan| && plan[k].path == CtlPath ==> plan[k].payload == ViewPayload(ntag)
  {
    var plan := Plan(w, ctag);
    var ntag := Target(Ensured(w, ctag).tags, ctag);
    if ntag != ctag {
      assert plan[|plan| - 2].path == CtlPath;
    }
  }

  /** An untagged window is given the visible tag with one delta write,
      carries exactly that tag, and is focused without a view switch. */
  lemma PlanUntagged(w: Window, ctag: string)
    requires w.tags == []
    ensures Ensured(w, ctag).tags == [ctag]
    ensures Plan(w, ctag) == [Write(TagsPath(w.id), AddTagPayload(ctag)), Write(SelCtlPath, SelectPayload(w.id))]
  {
    TaggedUntagged(w, ctag);
  }

  /** A window that carries the visible tag is focused without a view
      switch, even when it carries other tags too. */
  lemma PlanOnVisibleTag(w: Window, ctag: string)
    requires ctag in w.tags
    ensures Plan(w, ctag) == [Write(SelCtlPath, SelectPayload(w.id))]
  {
  }

  /** A tagged window that does not carry the visible tag is shown on its
      first tag. */
  lemma PlanElsewhere(w: Window, ctag: string)
    requires w.tags != [] && ctag !in w.tags
    ensures Plan(w, ctag) == [Write(CtlPath, ViewPayload(w.tags[0])), Write(SelCtlPath, SelectPayload(w.id))]
  {
  }

  /** Resolving again once the view shows the resolved tag keeps it: a
      second step for the same window switches nothing. */
  lemma ResolveIdempotent(w: Window, ctag: string)
    requires w.tags != []
    ensures Target(w.tags, Target(w.tags, ctag)) == Target(w.tags, ctag)
    ensures Plan(w, Target(w.tags, ctag)) == [Write(SelCtlPath, SelectPayload(w.id))]
  {
    PlanOnVisibleTag(w, Target(w.tags, ctag));
  }

  /** The tags b, a, z with a visible resolve to a; the tags b, z resolve
      to b. */
  lemma TargetExamples()
    ensures Target(["b", "a", "z"], "a") == "a"
    ensures Target(["b", "z"], "a") == "b"
  {
  }
}
