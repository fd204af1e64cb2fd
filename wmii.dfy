/**
  The navigator's view of the wmii window manager: a session over the
  manager's file namespace, the windows listed under /client, the visible tag
  read from /ctl, and the commands written back.

  The remote namespace is abstract. The listing of /client is either a
  sequence of entry names or a failure. Reading a path gives the bytes read
  and whether the read succeeded; a path absent from the store cannot be
  opened. Writing succeeds unless the path refuses writes, and every
  successful write is appended to the session's log, so the effect of an
  operation is the sequence of writes it adds.
 */
module Wmii {
  import opened Text
  import opened Tags

  datatype Option<T> = None | Some(value: T)

  /** A window: the manager's identifier (its entry under /client), its
      property text and its tags. */
  datatype Window = Window(id: string, props: string, tags: seq<string>)

  /** The outcome of reading a file to its end: the bytes read so far, and
      whether opening and reading both succeeded. */
  datatype ReadResult = ReadResult(data: string, ok: bool)

  /** One write to the namespace: the path and the whole payload. */
  datatype Write = Write(path: string, payload: string)

  const ClientDir: string := "/client"
  /** The entry of /client that names the selected window, not a window. */
  const SelEntry: string := "sel"
  const CtlPath: string := "/ctl"
  const SelCtlPath: string := "/tag/sel/ctl"
  const ViewPrefix: string := "view "

  function PropsPath(id: string): string { ClientDir + "/" + id + "/props" }
  function TagsPath(id: string): string { ClientDir + "/" + id + "/tags" }

  function SelectPayload(id: string): string { "select client " + id + "\n" }
  function ViewPayload(tag: string): string { ViewPrefix + tag + "\n" }
  /** The delta written to a window's tags file to add one tag. */
  function AddTagPayload(tag: string): string { [Sep] + tag }

  /** The files the navigator writes are distinct: the tags file of any
      window, the manager's control file and the selected tag's control
      file. */
  lemma WritePathsDistinct(id: string)
    ensures TagsPath(id) != CtlPath && TagsPath(id) != SelCtlPath && CtlPath != SelCtlPath
    ensures TagsPath(id) != PropsPath(id)
  {
    assert |TagsPath(id)| == |id| + 13;
    assert TagsPath(id)[|id| + 9] == 't' && PropsPath(id)[|id| + 9] == 'p';
  }

  /** Different windows have different tags files, so the delta reaches
      the chosen window only. */
  lemma TagsPathInjective(a: string, b: string)
    requires TagsPath(a) == TagsPath(b)
    ensures a == b
  {
    assert |a| == |b|;
    assert a == TagsPath(a)[8..|a| + 8];
  }

  /** Reading path from the store: a path that cannot be opened gives no
      bytes and a failure. */
  function ReadFrom(files: map<string, ReadResult>, path: string): ReadResult
  {
    if path in files then files[path] else ReadResult("", false)
  }

  // ---------------------------------------------------------------------
  // The window listing
  // ---------------------------------------------------------------------

  /** The window built for the entry id: the bytes read from its props file
      and the tags parsed from its tags file, whether or not the reads
      failed. */
  function WindowOf(files: map<string, ReadResult>, id: string): (w: Window)
    ensures w.id == id && WellFormed(w.tags)
  {
    var tagstr := ReadFrom(files, TagsPath(id)).data;
    TagsWellFormed(tagstr);
    Window(id, ReadFrom(files, PropsPath(id)).data, TagsOf(tagstr))
  }

  /** The entries of /client other than the reserved sel entry, in order. */
  function NonSel(names: seq<string>): (ids: seq<string>)
    ensures |ids| <= |names|
    ensures SelEntry !in ids
  {
    if names == [] then []
    else
      var last := names[|names| - 1];
      NonSel(names[..|names| - 1]) + (if last == SelEntry then [] else [last])
  }

  /** The windows listed for the entries names: one per entry that is not
      sel, in directory order. */
  function Listing(names: seq<string>, files: map<string, ReadResult>): (wins: seq<Window>)
    ensures |wins| == |NonSel(names)|
    ensures forall k :: 0 <= k < |wins| ==> wins[k] == WindowOf(files, NonSel(names)[k])
  {
    if names == [] then []
    else
      var init, last := names[..|names| - 1], names[|names| - 1];
      var prev := Listing(init, files);
      assert NonSel(names) == NonSel(init) + (if last == SelEntry then [] else [last]);
      if last == SelEntry then prev
      else
        var wins := prev + [WindowOf(files, last)];
        assert forall k :: 0 <= k < |prev| ==> wins[k] == prev[k];
        wins
  }

  /** One more directory entry adds its window, unless it is sel. */
  lemma ListingSnoc(names: seq<string>, name: string, files: map<string, ReadResult>)
    ensures Listing(names + [name], files)
      == Listing(names, files) + (if name == SelEntry then [] else [WindowOf(files, name)])
  {
    assert (names + [name])[..|names|] == names;
  }

  /** The listing has one window per entry that is not sel. */
  lemma {:induction false} NonSelCount(names: seq<string>)
    ensures |NonSel(names)| == |names| - multiset(names)[SelEntry]
  {
    if names != [] {
      var init := names[..|names| - 1];
      NonSelCount(init);
      assert names == init + [names[|names| - 1]];
    }
  }

  /** An entry is listed exactly when it is in the directory and is not sel. */
  lemma {:induction false} NonSelMembers(names: seq<string>, x: string)
    ensures x in NonSel(names) <==> x in names && x != SelEntry
  {
    if names != [] {
      var init := names[..|names| - 1];
      NonSelMembers(init, x);
      assert names == init + [names[|names| - 1]];
    }
  }

  /** Directory order is kept: the entries of a + b are those of a, then
      those of b. */
  lemma {:induction false} NonSelAppend(a: seq<string>, b: seq<string>)
    ensures NonSel(a + b) == NonSel(a) + NonSel(b)
  {
    if b != [] {
      var init := b[..|b| - 1];
      NonSelAppend(a, init);
      assert (a + b)[..|a + b| - 1] == a + init;
      assert (a + b)[|a + b| - 1] == b[|b| - 1];
    } else {
      assert a + b == a;
    }
  }

  /** A failed read keeps the window: a props file that cannot be opened
      gives the empty property text, a tags file that cannot be opened gives
      no tags, and the window is listed all the same. */
  lemma ListingReadFailure(names: seq<string>, files: map<string, ReadResult>, k: nat)
    requires k < |NonSel(names)|
    ensures k < |Listing(names, files)|
    ensures Listing(names, files)[k].id == NonSel(names)[k]
    ensures PropsPath(NonSel(names)[k]) !in files ==> Listing(names, files)[k].props == ""
    ensures TagsPath(NonSel(names)[k]) !in files ==> Listing(names, files)[k].tags == []
    ensures |Listing(names, files)| == |Listing(names, map[])|
  {
    TagsExamples();
  }

  /** The directory sel, w1, w2 lists the windows w1 and w2. */
  lemma ListingExample(files: map<string, ReadResult>)
    ensures |Listing(["sel", "w1", "w2"], files)| == 2
    ensures Listing(["sel", "w1", "w2"], files)[0].id == "w1"
    ensures Listing(["sel", "w1", "w2"], files)[1].id == "w2"
  {
    var names: seq<string> := ["sel", "w1", "w2"];
    assert names[..1] == ["sel"] && names[..2] == ["sel", "w1"];
    assert names[..2][..1] == names[..1] && names[..1][..0] == [];
    assert NonSel(names) == ["w1", "w2"];
  }

  // ---------------------------------------------------------------------
  // The visible tag in /ctl
  // ---------------------------------------------------------------------

  predicate IsViewLine(line: string)
  {
    HasPrefix(line, ViewPrefix)
  }

  /** The visible tag announced by the lines of /ctl: the trimmed rest of the
      first line that starts with "view ", or the empty text when none does. */
  function CurrentTagOf(lines: seq<string>): (tag: string)
    ensures tag == [] || (!IsSpace(tag[0]) && !IsSpace(tag[|tag| - 1]))
  {
    if lines == [] then ""
    else if IsViewLine(lines[0]) then TrimSpace(lines[0][|ViewPrefix|..])
    else CurrentTagOf(lines[1..])
  }

  /** The first view line decides, and without one the tag is empty. */
  lemma {:induction false} CurrentTagFirstMatch(lines: seq<string>, k: nat)
    requires k < |lines| && IsViewLine(lines[k])
    requires forall j :: 0 <= j < k ==> !IsViewLine(lines[j])
    ensures CurrentTagOf(lines) == TrimSpace(lines[k][|ViewPrefix|..])
  {
    if k > 0 {
      CurrentTagFirstMatch(lines[1..], k - 1);
    }
  }

  lemma {:induction false} CurrentTagNoMatch(lines: seq<string>)
    requires forall j :: 0 <= j < |lines| ==> !IsViewLine(lines[j])
    ensures CurrentTagOf(lines) == ""
  {
    if lines != [] {
      CurrentTagNoMatch(lines[1..]);
    }
  }

  /** Lines after the first view line are ignored. */
  lemma {:induction false} CurrentTagIgnoresLater(lines: seq<string>, more: seq<string>, k: nat)
    requires k < |lines| && IsViewLine(lines[k])
    ensures CurrentTagOf(lines + more) == CurrentTagOf(lines)
  {
    if !IsViewLine(lines[0]) {
      assert (lines + more)[1..] == lines[1..] + more;
      CurrentTagIgnoresLater(lines[1..], more, k - 1);
    }
  }

  /** Reading back what View writes: a /ctl holding the view command for a
      tag without surrounding white space or newline announces that tag. */
  lemma ViewRoundTrip(tag: string)
    requires '\n' !in tag
    requires tag == [] || (!IsSpace(tag[0]) && !IsSpace(tag[|tag| - 1]))
    ensures CurrentTagOf(ScanLines(ViewPayload(tag))) == tag
  {
    var line := ViewPrefix + tag;
    assert ViewPayload(tag) == line + "\n" + "";
    ScanLinesFirst(line, "");
    assert line[|ViewPrefix|..] == tag;
    TrimSpaceTrimmed(tag);
  }

  /** The window after AddTag: the tag appended and the list re-sorted. */
  function Tagged(win: Window, tag: string): (t: Window)
    ensures t.id == win.id && t.props == win.props
    ensures Sorted(t.tags) && multiset(t.tags) == multiset(win.tags) + multiset{tag}
  {
    win.(tags := Sort(win.tags + [tag]))
  }

  /** An untagged window given a tag carries exactly that tag. */
  lemma TaggedUntagged(win: Window, tag: string)
    requires win.tags == []
    ensures Tagged(win, tag).tags == [tag]
  {
    assert win.tags + [tag] == [tag];
  }

  // ---------------------------------------------------------------------
  // The session
  // ---------------------------------------------------------------------

  /** A session attached to the manager's namespace. The namespace's
      contents are fixed for the session's life; what changes is the log of
      writes the session has made. */
  class Session {
    const clientDir: Option<seq<string>>
    const files: map<string, ReadResult>
    const refused: set<string>
    var log: seq<Write>

    constructor (clientDir: Option<seq<string>>, files: map<string, ReadResult>, refused: set<string>)
      ensures this.clientDir == clientDir && this.files == files && this.refused == refused
      ensures log == []
    {
      this.clientDir := clientDir;
      this.files := files;
      this.refused := refused;
      log := [];
    }

    function ReadFile(path: string): ReadResult
    {
      ReadFrom(files, path)
    }

    /** Write payload to path; a refused path leaves the log as it was. */
    method WriteFile(path: string, payload: string) returns (ok: bool)
      modifies this
      ensures ok == (path !in refused)
      ensures log == old(log) + (if ok then [Write(path, payload)] else [])
    {
      ok := path !in refused;
      if ok {
        log := log + [Write(path, payload)];
      }
    }

    /** The windows under /client, or a failure when the directory cannot be
      read. A window whose files cannot be read is still listed. */
    method Windows() returns (wins: seq<Window>, ok: bool)
      ensures ok == clientDir.Some?
      ensures ok ==> wins == Listing(clientDir.value, files)
      ensures !ok ==> wins == []
    {
      if clientDir.None? {
        return [], false;
      }
      var dirs := clientDir.value;
      wins := [];
      for i := 0 to |dirs|
        invariant wins == Listing(dirs[..i], files)
      {
        var name := dirs[i];
        assert dirs[..i + 1] == dirs[..i] + [name];
        ListingSnoc(dirs[..i], name, files);
        if name != SelEntry {
          var win := ReadWindow(name);
          wins := wins + [win];
        }
      }
      assert dirs[..|dirs|] == dirs;
      ok := true;
    }

    /** The window for the entry name: its props file's bytes and the tags
        parsed from its tags file, kept even when a read fails. */
    method ReadWindow(name: string) returns (win: Window)
      ensures win == WindowOf(files, name)
    {
      var props := ReadFile(PropsPath(name)).data;
      var tagstr := ReadFile(TagsPath(name)).data;
      var tags := ParseTags(tagstr);
      win := Window(name, props, tags);
    }

    /** Focus the window id. */
    method SelectWindow(id: string) returns (ok: bool)
      modifies this
      ensures ok == (SelCtlPath !in refused)
      ensures log == old(log) + (if ok then [Write(SelCtlPath, SelectPayload(id))] else [])
    {
      ok := WriteFile(SelCtlPath, SelectPayload(id));
    }

    /** Switch the manager's view to tag. */
    method View(tag: string) returns (ok: bool)
      modifies this
      ensures ok == (CtlPath !in refused)
      ensures log == old(log) + (if ok then [Write(CtlPath, ViewPayload(tag))] else [])
    {
      ok := WriteFile(CtlPath, ViewPayload(tag));
    }

    /** The visible tag: scan /ctl line by line for the first view line.
        A failed read gives the empty tag and a failure. */
    method CurrentTag() returns (tag: string, ok: bool)
      ensures ok == ReadFile(CtlPath).ok
      ensures ok ==> tag == CurrentTagOf(ScanLines(ReadFile(CtlPath).data))
      ensures !ok ==> tag == ""
    {
      var ctl := ReadFile(CtlPath);
      if !ctl.ok {
        return "", false;
      }
      var rest := ctl.data;
      while rest != []
        invariant CurrentTagOf(ScanLines(rest)) == CurrentTagOf(ScanLines(ctl.data))
        decreases |rest|
      {
        var line := NextLine(rest).0;
        if HasPrefix(line, ViewPrefix) {
          return TrimSpace(line[|ViewPrefix|..]), true;
        }
        rest := NextLine(rest).1;
      }
      return "", true;
    }

    /** Give win the tag: append it to the window's tags, re-sort them, and
        write the delta "+tag" to the window's tags file. The window value
        is updated even when the write fails. */
    method AddTag(win: Window, tag: string) returns (tagged: Window, ok: bool)
      modifies this
      ensures tagged == Tagged(win, tag)
      ensures tagged.id == win.id && tagged.props == win.props
      ensures Sorted(tagged.tags) && multiset(tagged.tags) == multiset(win.tags) + multiset{tag}
      ensures |tagged.tags| == |win.tags| + 1
      ensures ok == (TagsPath(win.id) !in refused)
      ensures log == old(log) + (if ok then [Write(TagsPath(win.id), AddTagPayload(tag))] else [])
    {
      tagged := win.(tags := Sort(win.tags + [tag]));
      assert |multiset(tagged.tags)| == |win.tags| + 1;
      ok := WriteFile(TagsPath(win.id), AddTagPayload(tag));
    }
  }
}
