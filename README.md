# wmiinav navigation core in Dafny

This project models the `nav` command of wmiinav, a small helper for the wmii
window manager. One run of `nav`:

1. lists the managed windows under `/client` of the manager's 9P namespace,
   with each window's property text and its `+`-separated tags;
2. shows one line per window, `<i> [tags] props`, in an external picker
   (dmenu) and matches the line the picker prints back;
3. reads the visible tag from `/ctl`;
4. gives an untagged window the visible tag by writing the delta `+tag` to
   its tags file;
5. switches the view (`view <tag>` on `/ctl`) when the window does not carry
   the visible tag;
6. focuses the window (`select client <id>` on `/tag/sel/ctl`).

The run stops when `/client` cannot be listed, when the picker fails, or at
the first refused write. A failed read of a window's files or of `/ctl` is
ignored.

Modules, one per layer of the program:

- `Text` holds the Go library behaviour the code relies on:
  - `strings.Split` and `strings.Join`;
  - `strings.HasPrefix` and `strings.TrimSpace`;
  - `bufio.Scanner` splitting into lines;
  - `sort.Strings` and Go's byte-wise string order;
  - the `%d` verb.
- `Tags` parses a tags file.
- `Wmii` holds:
  - the window record;
  - the session (the `wmii` object) as a class with a log of the writes it
    made;
  - the listing of `/client`;
  - the `/ctl` parser;
  - `AddTag`.
- `Picker` renders the picker lines and matches the picker's output.
- `Nav` holds the navigation step.

The manager's namespace is abstract. A `Session` holds:

- the listing of `/client`, or a failure;
- a map from path to the outcome of reading that path to its end (the bytes
  read and whether the read succeeded);
- the set of paths whose writes fail;
- `log`, the sequence of successful writes.

The effect of an operation is therefore the writes it appends to `log`.
`Nav.Plan` gives the writes a step makes when every write succeeds.
`Nav.Performed` cuts a plan at its first refused write. `Nav.Nav` is proved to
append exactly the performed prefix of the plan, and to succeed exactly when
the whole plan was performed.

Three details of the code decide behaviour that is easy to get wrong, and the
model keeps each of them:

- A picker that exits with an error status makes the step fail (lines
  180-183). dmenu exits that way when the user presses Escape. Only a picker
  that exits normally, with empty output or with a line that matches no
  window, gives "no selection" (lines 185-194). In the model the picker's
  output is `None` in the first case.
- An error reading `/ctl` is ignored and the visible tag becomes the empty
  text (line 219, `Nav.NavTag`).
- `AddTag` writes only the delta `+tag` to the window's tags file (line 115),
  and relies on the manager to append it.

## Model

| member | source | states |
|---|---|---|
| Text.Split | wmiinav.go:75 | splitting on `+` gives at least one piece, no piece holds the separator, and joining the pieces with the separator gives back the text |
| Text.Join | wmiinav.go:159 | the `+`-join of a window's tags in its picker line; splitting inverts it (proved in `SplitJoin`) |
| Text.SplitNoSep | wmiinav.go:75 | a text without a separator splits into itself alone |
| Text.SplitAfter | wmiinav.go:75 | the first separator ends the first piece |
| Text.SplitJoin | wmiinav.go:75 | splitting undoes joining for pieces free of the separator |
| Text.HasPrefix | wmiinav.go:104 | `strings.HasPrefix`: the text begins with the prefix |
| Text.IsSpace | wmiinav.go:105 | `unicode.IsSpace`: the ASCII white space characters, NEL, NBSP and the other characters of Unicode's White_Space property |
| Text.TrimSpace | wmiinav.go:105 | the result is the slice of the input after its leading white space, everything cut off on either side is white space, and the result neither starts nor ends with white space |
| Text.TrimSpaceTrimmed | wmiinav.go:105 | a text already free of surrounding white space is unchanged |
| Text.DropCR | wmiinav.go:101-103 | the scanner drops one carriage return at the end of a line, and the token is a prefix of the line |
| Text.ScanLines | wmiinav.go:101-107 | the tokens of the scanner: no token holds a newline, and there are no more tokens than characters |
| Text.NextLine | wmiinav.go:101-103 | each scanner step consumes at least one character, so the scan of `/ctl` ends |
| Text.ScanLinesFirst | wmiinav.go:101-103 | a newline-terminated line without a trailing carriage return is the first token, unchanged, and scanning goes on after its newline |
| Text.Dec | wmiinav.go:159 | the numeral of an index is non-empty and all digits, has no leading zero, and has two digits or more from 10 on |
| Text.DecInjective | wmiinav.go:159 | different indices get different numerals |
| Text.Val | wmiinav.go:159 | the number a decimal numeral denotes |
| Text.DecValue | wmiinav.go:159 | the numeral printed for an index denotes that index |
| Text.Le | wmiinav.go:114 | Go's string order: character by character, with a proper prefix first |
| Text.LeTotal | wmiinav.go:114 | any two strings are comparable in Go's string order |
| Text.LeAntisymmetric | wmiinav.go:114 | strings that are each at most the other are equal |
| Text.LeReflexive | wmiinav.go:114 | every string is at most itself |
| Text.LeTransitive | wmiinav.go:114 | the string order is transitive |
| Text.Insert | wmiinav.go:114 | inserting into a sorted list keeps it sorted and adds exactly the new element |
| Text.Sort | wmiinav.go:114 | the sorted tags are in Go's string order and are a permutation of the input |
| Text.SortedUnique | wmiinav.go:114 | two sorted permutations of the same tags are equal, so every correct sort (stable or not) gives `Sort`'s result |
| Tags.DropEmpty | wmiinav.go:74-79 | the kept pieces are non-empty pieces of the split, and no more of them than pieces |
| Tags.TagsOf | wmiinav.go:74-79 | the tags of a tags file: the non-empty pieces of its text split on `+` |
| Tags.DropEmptyMembers | wmiinav.go:75-78 | a piece of the split is a tag if and only if it is non-empty |
| Tags.DropEmptyCount | wmiinav.go:75-78 | the number of tags is the number of pieces less the number of empty pieces, so every non-empty piece is kept |
| Tags.DropEmptyAppend | wmiinav.go:75-78 | the tags keep the order of the pieces: the tags of a + b are those of a, then those of b |
| Tags.ParseTags | wmiinav.go:74-79 | the collecting loop yields exactly the non-empty pieces of the split, in order |
| Tags.TagsWellFormed | wmiinav.go:74-79 | whatever the file holds, every parsed tag is non-empty and free of `+` |
| Tags.DropEmptyNone | wmiinav.go:76-78 | with no empty piece, nothing is dropped |
| Tags.TagsRoundTrip | wmiinav.go:74-79 | a list of non-empty, `+`-free tags joined with `+` parses back to the same list |
| Tags.TagsJoinBack | wmiinav.go:74-79 | a file without empty pieces is exactly the `+`-join of its parsed tags |
| Tags.TagsCanonical | wmiinav.go:74-79 | parsing is a normal form: re-joining parsed tags and parsing again changes nothing |
| Tags.TagsExamples | wmiinav.go:74-79 | `a+b` holds a and b, and an empty file and `+` hold no tag |
| Tags.TagsExampleWrapped | wmiinav.go:74-79 | leading and trailing separators are dropped: `+a+b+` holds a and b |
| Wmii.NonSel | wmiinav.go:60-63 | the listed entries never include `sel` and are no more than the directory entries |
| Wmii.PropsPath | wmiinav.go:64 | the props file of a window, `/client/<id>/props` |
| Wmii.TagsPath | wmiinav.go:69 | the tags file of a window, `/client/<id>/tags` |
| Wmii.SelectPayload | wmiinav.go:88 | the focus command `select client <id>` and a newline |
| Wmii.ViewPayload | wmiinav.go:92 | the view command `view <tag>` and a newline |
| Wmii.AddTagPayload | wmiinav.go:115 | the delta `+tag` |
| Wmii.ReadFrom | wmiinav.go:137-144 | reading a file to its end: a file that cannot be opened gives no bytes and a failure |
| Wmii.WritePathsDistinct | wmiinav.go:64-115 | the tags file of any window, `/ctl` and `/tag/sel/ctl` are three different files, and a window's tags file is not its props file |
| Wmii.TagsPathInjective | wmiinav.go:115 | different windows have different tags files, so the delta reaches the chosen window only |
| Wmii.WindowOf | wmiinav.go:64-81 | the window for an entry keeps the entry's name as its id, and its tags are non-empty and free of `+` whatever the tags file holds |
| Wmii.Listing | wmiinav.go:59-82 | one window per entry other than `sel`, in directory order, each built from that entry's props and tags files |
| Wmii.NonSelCount | wmiinav.go:60-63 | the number of windows is the number of entries less the number of `sel` entries |
| Wmii.NonSelMembers | wmiinav.go:60-63 | an entry is listed if and only if it is in the directory and is not `sel` |
| Wmii.NonSelAppend | wmiinav.go:60-81 | the listing keeps directory order: the windows of a + b are those of a, then those of b |
| Wmii.ListingReadFailure | wmiinav.go:64-73 | a window whose props or tags file cannot be opened is still listed, with empty props or no tags, and read failures never change the number of windows |
| Wmii.ListingExample | wmiinav.go:59-82 | the directory `sel, w1, w2` lists w1 then w2 |
| Wmii.CurrentTagOf | wmiinav.go:102-109 | the visible tag read from the lines of `/ctl` neither starts nor ends with white space |
| Wmii.IsViewLine | wmiinav.go:104 | a line of `/ctl` that announces the view starts with `view ` |
| Wmii.CurrentTagFirstMatch | wmiinav.go:102-106 | the first line starting with `view ` decides the tag: its remainder, trimmed |
| Wmii.CurrentTagNoMatch | wmiinav.go:102-109 | without a view line the tag is empty |
| Wmii.CurrentTagIgnoresLater | wmiinav.go:102-106 | lines after the first view line do not change the tag |
| Wmii.ViewRoundTrip | wmiinav.go:91-106 | reading `/ctl` after it holds the command that `View` writes gives back the tag, for a tag without newline or surrounding white space |
| Wmii.TaggedUntagged | wmiinav.go:112-114 | an untagged window given a tag carries exactly that tag |
| Wmii.Tagged | wmiinav.go:113-114 | the tagged window keeps its id and props, and its tags are sorted and are the old tags plus the new one |
| Wmii.Session.constructor | wmiinav.go:33-46 | a new session is attached to the given namespace and has written nothing |
| Wmii.Session.WriteFile | wmiinav.go:146-154 | a write succeeds exactly when the path accepts writes, and only a successful write is recorded |
| Wmii.Session.ReadFile | wmiinav.go:137-144 | `readFile` on the session's namespace: the bytes read and whether opening and reading succeeded |
| Wmii.Session.Windows | wmiinav.go:52-85 | fails, with no windows, exactly when `/client` cannot be listed, and otherwise returns the listing of its entries |
| Wmii.Session.ReadWindow | wmiinav.go:64-81 | reads the two files of one entry and builds its window, keeping whatever was read when a read fails |
| Wmii.Session.SelectWindow | wmiinav.go:87-89 | writes `select client <id>` and a newline to `/tag/sel/ctl`, and reports whether that write succeeded |
| Wmii.Session.View | wmiinav.go:91-93 | writes `view <tag>` and a newline to `/ctl`, and reports whether that write succeeded |
| Wmii.Session.CurrentTag | wmiinav.go:95-110 | fails, with the empty tag, exactly when `/ctl` cannot be read, and otherwise returns the tag of the first view line among the scanned lines |
| Wmii.Session.AddTag | wmiinav.go:112-116 | the window keeps its id and props, its tags become the sorted old tags plus the new one, the delta `+tag` goes to its tags file, and the window is updated even when the write fails |
| Picker.Items | wmiinav.go:157-160 | one picker line per window |
| Picker.RenderItem | wmiinav.go:159 | the line of window i starts with the marker `<i>` and ends with the window's props |
| Picker.RenderItems | wmiinav.go:156-160 | the filling loop produces the line `<i> [tags] props` for each window i |
| Picker.IndexOf | wmiinav.go:187-191 | the least index of a matching line, and -1 if and only if no line matches |
| Picker.ChoiceOf | wmiinav.go:185-194 | a chosen index is in range, and its line equals the output less its last byte |
| Picker.Choose | wmiinav.go:185-194 | the matching loop returns the choice that the output denotes |
| Picker.IndexMarkerUnique | wmiinav.go:159 | a line starts with the marker of one position at most |
| Picker.MarkerChars | wmiinav.go:159 | after a marker's `<` come the index's digits, and its `>` is the first `>` of the line |
| Picker.RenderStartsWithIndex | wmiinav.go:159 | every line, and each of its prefixes long enough, starts with its own index marker |
| Picker.RenderDistinct | wmiinav.go:157-160 | lines for different positions differ, even for windows with equal tags and props |
| Picker.PickRoundTrip | wmiinav.go:156-194 | printing back the line of window i with its newline chooses i |
| Picker.PickWithoutNewline | wmiinav.go:185-194 | a line printed back without its newline matches nothing, because the last byte is always dropped |
| Picker.PickNothing | wmiinav.go:185-194 | empty output chooses nothing |
| Picker.RenderExample | wmiinav.go:157-160 | the windows (x, P1) and (no tags, P2) render as `<0> [x] P1` and `<1> [] P2` |
| Nav.Target | wmiinav.go:227-232 | the resolved tag is one of the window's tags |
| Nav.Resolve | wmiinav.go:227-232 | the resolution loop gives the visible tag when the window carries it, and otherwise the window's first tag |
| Nav.Ensured | wmiinav.go:221-225 | once the untagged case is handled, the window has a tag and keeps its id |
| Nav.NavTag | wmiinav.go:219 | the visible tag as the step uses it: empty when `/ctl` cannot be read, and never with surrounding white space |
| Nav.TagWrites | wmiinav.go:221-224 | the delta `+ctag` to the tags file of an untagged window, and nothing for a tagged one |
| Nav.ViewWrites | wmiinav.go:234-238 | the view command for the resolved tag when it is not the visible one, and nothing otherwise |
| Nav.FocusWrite | wmiinav.go:240 | the focus command for the window, written to `/tag/sel/ctl` |
| Nav.Plan | wmiinav.go:221-240 | the writes of a step when all succeed: one or two of them, the last one focusing the chosen window |
| Nav.Performed | wmiinav.go:221-240 | the writes that take place: the plan up to its first refused write, as the early returns at lines 222-224 and 235-237 end the step |
| Nav.Selection | wmiinav.go:204-216 | the selected index is -1 or a position in the listing |
| Nav.PerformedStopsAtRefusal | wmiinav.go:221-240 | the writes made are a prefix of the plan, none of them refused, and the plan stops short only at a refused write |
| Nav.PerformedAppend | wmiinav.go:221-240 | a later part of the plan runs only when the whole earlier part succeeded |
| Nav.TwoPartPlan | wmiinav.go:221-240 | a two-part plan runs in full exactly when both parts do, and a failure in the first part ends it there |
| Nav.Nav | wmiinav.go:197-241 | fails without writing when `/client` cannot be listed or the picker fails, succeeds without writing when nothing is chosen, and otherwise performs the chosen window's plan up to its first refused write, succeeding exactly when the whole plan was performed |
| Nav.Apply | wmiinav.go:218-240 | for the chosen window, appends the performed prefix of its plan and reports whether all of it was performed |
| Nav.EnsureTagged | wmiinav.go:221-225 | an untagged window gets the visible tag with one delta write, and a tagged window is neither changed nor written |
| Nav.ShowAndFocus | wmiinav.go:227-240 | switches the view only when the resolved tag is not the visible one, and a failed switch skips the focus |
| Nav.PlanEndsWithSelect | wmiinav.go:240 | the focus write ends every plan and is its only write to `/tag/sel/ctl` |
| Nav.PlanViewIff | wmiinav.go:227-238 | a plan writes `/ctl` if and only if the resolved tag differs from the visible one, and then only with the view command for the resolved tag |
| Nav.PlanUntagged | wmiinav.go:221-240 | an untagged window carries exactly the visible tag afterwards, and its plan is the delta write followed by the focus, with no view switch |
| Nav.PlanOnVisibleTag | wmiinav.go:227-240 | a window carrying the visible tag is only focused |
| Nav.PlanElsewhere | wmiinav.go:227-240 | a tagged window without the visible tag is shown on its first tag, then focused |
| Nav.ResolveIdempotent | wmiinav.go:227-238 | resolving again once the view shows the resolved tag keeps it, so a second step for the same window only focuses it |
| Nav.TargetExamples | wmiinav.go:227-232 | tags b, a, z with a visible resolve to a; tags b, z resolve to b |

## Left out

- The 9P connection and its file operations are abstract: dialing, attaching,
  opening, reading and writing (`newWmii`, `Close`, `readDir`, `readFile` and
  `writeFile`, lines 33-50 and 118-154). Only the outcome of each operation is
  modelled. `createFile` (lines 127-135) is used only by `status` and is not
  part of this model.
- The picker process is not modelled: starting dmenu, its flags, and the
  goroutine that feeds it lines (lines 165-183). Its output, or its failure,
  is a parameter of `Nav.Nav`. The lines fed to it are `Picker.Items`.
- The `status` command (lines 243-268) runs a clock-driven loop over
  `/proc/loadavg` and is not part of this model.
- `main` (lines 270-292) handles arguments and exit codes and is not part of
  this model.
- `window.String` (lines 24-26) is unused by `nav` and is not part of this
  model.
- The diagnostics printed to standard error when a props or tags file cannot
  be read (lines 67 and 72) are left out. Only their absence of effect on the
  listing is modelled.
- The manager's reaction to a write is not modelled: the namespace is fixed
  for a session. For example, a later read of `/ctl` does not see an earlier
  `view` write.
- A failed write is taken to change nothing. Whether a path refuses writes is
  fixed per path.
- Text is a sequence of decoded characters, not bytes, so invalid UTF-8 is not
  modelled. Dropping the picker's last byte is modelled as dropping its last
  character. The two agree when the output ends with a newline.
- Text.ScanLines: `bufio.Scanner`'s 64 KiB limit on a token is not
  modelled, so the scan error it would cause, which `CurrentTag` returns
  (line 109), cannot arise.
- Wmii.Session.AddTag: the Go method updates the window through a pointer.
  The model returns the updated window instead.
- Nav.Resolve and Nav.Target: both require a non-empty tag list, where the Go
  code would panic at line 227. `nav` never resolves an untagged window,
  because it tags it first.
- Dialing the manager at the start of `nav` (line 198) is outside the model.
  `Nav.Nav` receives an attached session.
