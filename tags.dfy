/**
  The tag list of a window. The manager stores it as one text with the tags
  joined by '+'; the navigator splits that text on '+' and drops the empty
  pieces, so leading, trailing and doubled separators, and an empty file,
  give no empty tag.
 */
module Tags {
  import opened Text

  const Sep: char := '+'

  /** The non-empty pieces of parts, in order. */
  function DropEmpty(parts: seq<string>): (r: seq<string>)
    ensures |r| <= |parts|
    ensures forall k :: 0 <= k < |r| ==> r[k] != [] && r[k] in parts
  {
    if parts == [] then []
    else
      var last := parts[|parts| - 1];
      DropEmpty(parts[..|parts| - 1]) + (if last == [] then [] else [last])
  }

  /** The tags held in the text of a window's tags file. */
  function TagsOf(tagstr: string): seq<string>
  {
    DropEmpty(Split(tagstr, Sep))
  }

  /** A list of tags that can be written as one '+'-joined text and read
      back: no tag is empty and none holds the separator. */
  predicate WellFormed(tags: seq<string>)
  {
    forall k :: 0 <= k < |tags| ==> tags[k] != [] && Sep !in tags[k]
  }

  /** The loop that collects the tags of one window. */
  method ParseTags(tagstr: string) returns (tags: seq<string>)
    ensures tags == TagsOf(tagstr)
  {
    var parts := Split(tagstr, Sep);
    tags := [];
    for i := 0 to |parts|
      invariant tags == DropEmpty(parts[..i])
    {
      assert parts[..i + 1][..i] == parts[..i];
      if parts[i] != "" {
        tags := tags + [parts[i]];
      }
    }
    assert parts[..|parts|] == parts;
  }

  /** Whatever the text, the parsed tags are non-empty and free of '+'. */
  lemma TagsWellFormed(tagstr: string)
    ensures WellFormed(TagsOf(tagstr))
  {
    var parts := Split(tagstr, Sep);
    forall k | 0 <= k < |TagsOf(tagstr)|
      ensures Sep !in TagsOf(tagstr)[k]
    {
      var j :| 0 <= j < |parts| && parts[j] == TagsOf(tagstr)[k];
    }
  }

  /** Dropping empty pieces changes nothing when there are none. */
  lemma {:induction false} DropEmptyNone(parts: seq<string>)
    requires forall k :: 0 <= k < |parts| ==> parts[k] != []
    ensures DropEmpty(parts) == parts
  {
    if parts != [] {
      DropEmptyNone(parts[..|parts| - 1]);
    }
  }

  /** A well-formed tag list survives joining with '+' and parsing back. */
  lemma TagsRoundTrip(tags: seq<string>)
    requires WellFormed(tags)
    ensures TagsOf(Join(tags, Sep)) == tags
  {
    if tags != [] {
      SplitJoin(tags, Sep);
      DropEmptyNone(tags);
    }
  }

  /** A text without empty pieces (no leading, trailing or doubled '+', and
      not empty) is exactly the '+'-join of its tags. */
  lemma TagsJoinBack(tagstr: string)
    requires forall k :: 0 <= k < |Split(tagstr, Sep)| ==> Split(tagstr, Sep)[k] != []
    ensures Join(TagsOf(tagstr), Sep) == tagstr
  {
    DropEmptyNone(Split(tagstr, Sep));
  }

  /** Parsing is a normal form: joining the tags and parsing again gives the
      same tags. */
  lemma TagsCanonical(tagstr: string)
    ensures TagsOf(Join(TagsOf(tagstr), Sep)) == TagsOf(tagstr)
  {
    TagsWellFormed(tagstr);
    TagsRoundTrip(TagsOf(tagstr));
  }

  /** A piece is kept exactly when it is not empty. */
  lemma {:induction false} DropEmptyMembers(parts: seq<string>, x: string)
    ensures x in DropEmpty(parts) <==> x in parts && x != []
  {
    if parts != [] {
      var init := parts[..|parts| - 1];
      DropEmptyMembers(init, x);
      assert parts == init + [parts[|parts| - 1]];
    }
  }

  /** Every non-empty piece is kept: only the empty ones are dropped. */
  lemma {:induction false} DropEmptyCount(parts: seq<string>)
    ensures |DropEmpty(parts)| == |parts| - multiset(parts)[""]
  {
    if parts != [] {
      var init := parts[..|parts| - 1];
      DropEmptyCount(init);
      assert parts == init + [parts[|parts| - 1]];
    }
  }

  /** The kept pieces stay in order: those of a, then those of b. */
  lemma {:induction false} DropEmptyAppend(a: seq<string>, b: seq<string>)
    ensures DropEmpty(a + b) == DropEmpty(a) + DropEmpty(b)
  {
    if b != [] {
      var init := b[..|b| - 1];
      DropEmptyAppend(a, init);
      assert (a + b)[..|a + b| - 1] == a + init;
      assert (a + b)[|a + b| - 1] == b[|b| - 1];
    } else {
      assert a + b == a;
    }
  }

  lemma DropEmptySnoc(parts: seq<string>, last: string)
    ensures DropEmpty(parts + [last]) == DropEmpty(parts) + (if last == [] then [] else [last])
  {
    assert (parts + [last])[..|parts|] == parts;
  }

  /** The tags files "a+b", "" and "+". */
  lemma TagsExamples()
    ensures TagsOf("a+b") == ["a", "b"]
    ensures TagsOf("") == []
    ensures TagsOf("+") == []
  {
    TagsRoundTrip(["a", "b"]);
    assert Join(["a", "b"], Sep) == "a+b";
    SplitAfter("", "", Sep);
    DropEmptySnoc([""], "");
  }

  /** Leading and trailing separators are dropped: "+a+b+" holds a and b. */
  lemma TagsExampleWrapped()
    ensures TagsOf("+a+b+") == ["a", "b"]
  {
    var p: seq<string> := ["", "a", "b", ""];
    WrappedPieces(p);
    WrappedTags(p);
  }

  lemma WrappedPieces(p: seq<string>)
    requires p == ["", "a", "b", ""]
    ensures Split("+a+b+", Sep) == p
  {
    assert Join(p[3..], Sep) == "";
    assert Join(p[2..], Sep) == "b+";
    assert Join(p[1..], Sep) == "a+b+";
    assert Join(p, Sep) == "+a+b+";
    SplitJoin(p, Sep);
  }

  lemma WrappedTags(p: seq<string>)
    requires p == ["", "a", "b", ""]
    ensures DropEmpty(p) == ["a", "b"]
  {
    DropEmptySnoc([], p[0]);
    assert [] + [p[0]] == p[..1];
    DropEmptySnoc(p[..1], p[1]);
    assert p[..1] + [p[1]] == p[..2];
    DropEmptySnoc(p[..2], p[2]);
    assert p[..2] + [p[2]] == p[..3];
    DropEmptySnoc(p[..3], p[3]);
    assert p[..3] + [p[3]] == p;
  }
}
