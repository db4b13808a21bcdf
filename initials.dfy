/** The avatar fallback text: `name.split(' ').map(n => n[0]).join('')`.
    An empty segment (two spaces in a row, or a leading or trailing space)
    yields `undefined`, which `join` prints as nothing. */
module Initials {

  const Space: char := ' '

  /** The segments between single spaces, as String.prototype.split(' ')
      gives them: one more segment than there are spaces, empty ones kept. */
  function Split(s: string): (r: seq<string>)
    ensures |r| >= 1
    ensures forall i :: 0 <= i < |r| ==> Space !in r[i]
  {
    if s == [] then [[]]
    else if s[0] == Space then [[]] + Split(s[1..])
    else
      var rest := Split(s[1..]);
      [[s[0]] + rest[0]] + rest[1..]
  }

  /** The segments glued back with a single space between neighbours. */
  function Join(segs: seq<string>): string
    requires |segs| >= 1
  {
    if |segs| == 1 then segs[0] else segs[0] + [Space] + Join(segs[1..])
  }

  /** Splitting loses nothing: joining the segments gives the name back. */
  lemma {:induction false} JoinSplit(s: string)
    ensures Join(Split(s)) == s
  {
    if s != [] {
      JoinSplit(s[1..]);
      var rest := Split(s[1..]);
      if s[0] == Space {
        assert Split(s)[1..] == rest;
      } else {
        var segs := Split(s);
        assert segs[0] == [s[0]] + rest[0];
        assert segs[1..] == rest[1..];
        if |rest| == 1 {
          assert s == [s[0]] + rest[0];
        } else {
          assert Join(rest) == rest[0] + [Space] + Join(rest[1..]);
        }
      }
    }
  }

  /** Joining space-free segments and splitting again gives the segments. */
  lemma {:induction false} SplitJoin(segs: seq<string>)
    requires |segs| >= 1
    requires forall i :: 0 <= i < |segs| ==> Space !in segs[i]
    ensures Split(Join(segs)) == segs
    decreases |segs|, |segs[0]|
  {
    if |segs| == 1 {
      SplitSpaceFree(segs[0]);
    } else if segs[0] == [] {
      var j := Join(segs);
      assert j == [Space] + Join(segs[1..]);
      assert j[1..] == Join(segs[1..]);
      SplitJoin(segs[1..]);
      assert Split(j) == [[]] + segs[1..];
    } else {
      var c := segs[0][0];
      var shorter := [segs[0][1..]] + segs[1..];
      forall i | 0 <= i < |shorter| ensures Space !in shorter[i] {
        if i > 0 {
          assert shorter[i] == segs[i];
        }
      }
      SplitJoin(shorter);
      var j := Join(segs);
      assert segs[0] == [c] + segs[0][1..];
      assert shorter[1..] == segs[1..];
      assert j == [c] + Join(shorter);
      assert j[1..] == Join(shorter);
      assert c != Space by {
        assert c in segs[0];
      }
    }
  }

  lemma {:induction false} SplitSpaceFree(s: string)
    requires Space !in s
    ensures Split(s) == [s]
  {
    if s != [] {
      assert s[0] in s;
      assert forall c :: c in s[1..] ==> c in s;
      SplitSpaceFree(s[1..]);
      assert s == [s[0]] + s[1..];
    }
  }

  /** The first character of every non-empty segment, in order. */
  function FirstChars(segs: seq<string>): string {
    if segs == [] then []
    else (if segs[0] == [] then [] else [segs[0][0]]) + FirstChars(segs[1..])
  }

  /** The avatar initials of a name. */
  function InitialsOf(name: string): (r: string)
    ensures |r| <= |Split(name)|
    ensures Space !in r
  {
    FirstCharsBounds(Split(name));
    FirstChars(Split(name))
  }

  /** Independent reading of the same text: the characters of `s` that are
      not spaces and come first or right after a space. `atStart` says
      whether the previous character was a space (or there was none). */
  function WordStarts(s: string, atStart: bool): string {
    if s == [] then []
    else (if atStart && s[0] != Space then [s[0]] else []) + WordStarts(s[1..], s[0] == Space)
  }

  lemma {:induction false} WordStartsOfSplit(s: string)
    ensures WordStarts(s, true) == FirstChars(Split(s))
    ensures WordStarts(s, false) == FirstChars(Split(s)[1..])
  {
    if s != [] {
      WordStartsOfSplit(s[1..]);
      var rest := Split(s[1..]);
      if s[0] == Space {
        assert Split(s)[1..] == rest;
        assert Split(s) == [[]] + rest;
      } else {
        assert Split(s)[1..] == rest[1..];
      }
    }
  }

  /** The initials are exactly the first characters of the space-separated
      words, in order; empty segments contribute nothing. */
  lemma InitialsAreWordStarts(name: string)
    ensures InitialsOf(name) == WordStarts(name, true)
    ensures |InitialsOf(name)| <= |Split(name)|
    ensures forall i :: 0 <= i < |InitialsOf(name)| ==> InitialsOf(name)[i] != Space
  {
    WordStartsOfSplit(name);
    FirstCharsBounds(Split(name));
  }

  lemma {:induction false} FirstCharsBounds(segs: seq<string>)
    requires forall i :: 0 <= i < |segs| ==> Space !in segs[i]
    ensures |FirstChars(segs)| <= |segs|
    ensures forall i :: 0 <= i < |FirstChars(segs)| ==> FirstChars(segs)[i] != Space
  {
    if segs != [] {
      FirstCharsBounds(segs[1..]);
      if segs[0] != [] {
        assert segs[0][0] in segs[0];
      }
    }
  }

  /** "Алексей Иванов" shows as "АИ". */
  lemma InitialsExample()
    ensures InitialsOf("Алексей Иванов") == "АИ"
  {
    var segs := ["Алексей", "Иванов"];
    assert Join(segs) == "Алексей Иванов";
    SplitJoin(segs);
    assert FirstChars(segs) == "А" + FirstChars(segs[1..]);
  }
}
