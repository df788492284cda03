/** Splitting text at a separator and joining it again. */
module TextLines {

  function Split<T(==)>(s: seq<T>, sep: T): (r: seq<seq<T>>)
    ensures |r| >= 1
  {
    if s == [] then [[]]
    else
      var r, last := Split(s[..|s| - 1], sep), s[|s| - 1];
      if last == sep then r + [[]] else r[..|r| - 1] + [r[|r| - 1] + [last]]
  }

  function Join<T>(lines: seq<seq<T>>, sep: T): seq<T> {
    if lines == [] then []
    else if |lines| == 1 then lines[0]
    else Join(lines[..|lines| - 1], sep) + [sep] + lines[|lines| - 1]
  }

  ghost predicate Unbroken<T(!new)>(lines: seq<seq<T>>, sep: T) {
    forall i :: 0 <= i < |lines| ==> sep !in lines[i]
  }

  lemma {:induction false} SplitIsUnbroken<T(!new)>(s: seq<T>, sep: T)
    ensures Unbroken(Split(s, sep), sep)
  {
    if s != [] {
      SplitIsUnbroken(s[..|s| - 1], sep);
    }
  }

  /** One more element on the last line. */
  lemma SplitGrows<T>(s: seq<T>, lines: seq<seq<T>>, last: seq<T>, x: T, sep: T)
    requires Split(s, sep) == lines + [last] && x != sep
    ensures Split(s + [x], sep) == lines + [last + [x]]
  {
    var t := s + [x];
    assert t[..|t| - 1] == s && t[|t| - 1] == x;
    assert (lines + [last])[..|lines|] == lines;
  }

  lemma JoinSnoc<T>(lines: seq<seq<T>>, line: seq<T>, sep: T)
    requires lines != []
    ensures Join(lines + [line], sep) == Join(lines, sep) + [sep] + line
  {
    var longer := lines + [line];
    assert longer[..|longer| - 1] == lines && longer[|longer| - 1] == line;
  }

  /** A piece appended to the last line. */
  lemma JoinLonger<T>(front: seq<seq<T>>, last: seq<T>, x: T, sep: T)
    ensures Join(front + [last + [x]], sep) == Join(front + [last], sep) + [x]
  {
    if front == [] {
      assert front + [last + [x]] == [last + [x]] && front + [last] == [last];
    } else {
      hide Join;
      JoinSnoc(front, last, sep);
      JoinSnoc(front, last + [x], sep);
      var before := Join(front, sep) + [sep];
      assert before + (last + [x]) == before + last + [x];
    }
  }

  lemma {:induction false} JoinOfSplit<T>(s: seq<T>, sep: T)
    ensures Join(Split(s, sep), sep) == s
  {
    if s != [] {
      var front, last := s[..|s| - 1], s[|s| - 1];
      var r := Split(front, sep);
      JoinOfSplit(front, sep);
      assert s == front + [last];
      if last == sep {
        JoinSnoc(r, [], sep);
      } else {
        JoinLonger(r[..|r| - 1], r[|r| - 1], last, sep);
        assert r[..|r| - 1] + [r[|r| - 1]] == r;
      }
    }
  }

  /** Splitting at a separator, text after it that holds none. */
  lemma {:induction false} SplitAppend<T>(s: seq<T>, line: seq<T>, sep: T)
    requires sep !in line
    ensures Split(s + [sep] + line, sep) == Split(s, sep) + [line]
  {
    var text := s + [sep] + line;
    if line == [] {
      assert text[..|text| - 1] == s;
    } else {
      var front, last := line[..|line| - 1], line[|line| - 1];
      assert last in line;
      SplitAppend(s, front, sep);
      assert text[..|text| - 1] == s + [sep] + front;
      assert front + [last] == line;
    }
  }

  lemma {:induction false} SplitUnbroken<T>(line: seq<T>, sep: T)
    requires sep !in line
    ensures Split(line, sep) == [line]
  {
    if line != [] {
      var front, last := line[..|line| - 1], line[|line| - 1];
      assert last in line;
      SplitUnbroken(front, sep);
      assert front + [last] == line;
    }
  }

  lemma {:induction false} SplitOfJoin<T(!new)>(lines: seq<seq<T>>, sep: T)
    requires lines != [] && Unbroken(lines, sep)
    ensures Split(Join(lines, sep), sep) == lines
  {
    if |lines| == 1 {
      SplitUnbroken(lines[0], sep);
    } else {
      var front, last := lines[..|lines| - 1], lines[|lines| - 1];
      SplitOfJoin(front, sep);
      SplitAppend(Join(front, sep), last, sep);
      assert front + [last] == lines;
    }
  }

  function TrimRight<T(==)>(s: seq<T>, x: T): (r: seq<T>)
    ensures r <= s && (r == [] || r[|r| - 1] != x) && forall i :: |r| <= i < |s| ==> s[i] == x
  {
    if s != [] && s[|s| - 1] == x then TrimRight(s[..|s| - 1], x) else s
  }
}
