/** The Python string operations the handlers lean on: `str.split(sep)` with
    a one-character separator, its inverse `sep.join(parts)`, and
    `str.strip()` with no argument. */
module Text {

  /** `str.split(d)`: the pieces between occurrences of `d`, keeping empty
      pieces; the empty string splits into one empty piece. */
  function Split(s: string, d: char): (parts: seq<string>)
    ensures |parts| >= 1
    ensures forall i :: 0 <= i < |parts| ==> d !in parts[i]
  {
    if s == [] then [[]]
    else
      var rest := Split(s[1..], d);
      if s[0] == d then [[]] + rest else [[s[0]] + rest[0]] + rest[1..]
  }

  /** `d.join(parts)`. */
  function Join(parts: seq<string>, d: char): (r: string)
    requires |parts| >= 1
    // the join starts with the first piece and holds a separator as soon
    // as there are two pieces
    ensures parts[0] <= r
    ensures |parts| > 1 ==> d in r
  {
    if |parts| == 1 then parts[0]
    else
      var r := parts[0] + [d] + Join(parts[1..], d);
      assert r[|parts[0]|] == d;
      r
  }

  /** Joining the pieces of a split gives back the string. */
  lemma {:induction false} JoinSplit(s: string, d: char)
    ensures Join(Split(s, d), d) == s
  {
    if s != [] {
      var rest := Split(s[1..], d);
      JoinSplit(s[1..], d);
      if s[0] == d {
        assert Split(s, d) == [[]] + rest;
      } else {
        var parts := Split(s, d);
        assert parts == [[s[0]] + rest[0]] + rest[1..];
        if |rest| == 1 {
          assert parts == [[s[0]] + rest[0]];
        } else {
          assert parts[1..] == rest[1..];
          assert Join(rest, d) == rest[0] + [d] + Join(rest[1..], d);
        }
      }
    }
  }

  /** Splitting a join of separator-free pieces gives back the pieces. */
  lemma {:induction false} SplitJoin(parts: seq<string>, d: char)
    requires |parts| >= 1
    requires forall i :: 0 <= i < |parts| ==> d !in parts[i]
    ensures Split(Join(parts, d), d) == parts
  {
    if |parts| == 1 {
      NoSeparatorSplit(parts[0], d);
    } else {
      SplitJoin(parts[1..], d);
      SplitPrefix(parts[0], Join(parts[1..], d), d);
      assert [parts[0]] + parts[1..] == parts;
    }
  }

  /** A string without the separator is a single piece. */
  lemma {:induction false} NoSeparatorSplit(s: string, d: char)
    requires d !in s
    ensures Split(s, d) == [s]
  {
    if s != [] {
      NoSeparatorSplit(s[1..], d);
      assert [s[0]] + s[1..] == s;
    }
  }

  /** Splitting `p + d + t`, where `p` holds no separator. */
  lemma {:induction false} SplitPrefix(p: string, t: string, d: char)
    requires d !in p
    ensures Split(p + [d] + t, d) == [p] + Split(t, d)
  {
    var s := p + [d] + t;
    if p == [] {
      assert s[1..] == t;
    } else {
      assert s[1..] == p[1..] + [d] + t;
      SplitPrefix(p[1..], t, d);
      assert [p[0]] + p[1..] == p;
    }
  }

  /** Splitting at one occurrence of the separator splits each side. */
  lemma {:induction false} SplitAround(p: string, t: string, d: char)
    ensures Split(p + [d] + t, d) == Split(p, d) + Split(t, d)
  {
    var s := p + [d] + t;
    if p == [] {
      assert s[1..] == t;
    } else {
      assert s[1..] == p[1..] + [d] + t;
      SplitAround(p[1..], t, d);
    }
  }

  /** `str.isspace()` for one character: the characters CPython counts as
      whitespace. */
  predicate IsSpace(c: char) {
    || '\t' <= c <= '\r'
    || '\U{1C}' <= c <= ' '
    || c == '\U{85}' || c == '\U{A0}' || c == '\U{1680}'
    || '\U{2000}' <= c <= '\U{200A}'
    || c == '\U{2028}' || c == '\U{2029}' || c == '\U{202F}' || c == '\U{205F}'
    || c == '\U{3000}'
  }

  /** `str.lstrip()`: drops the leading whitespace and nothing else. */
  function StripStart(s: string): (r: string)
    ensures |r| <= |s| && r == s[|s| - |r|..]
    ensures forall i :: 0 <= i < |s| - |r| ==> IsSpace(s[i])
    ensures r == [] || !IsSpace(r[0])
  {
    if s != [] && IsSpace(s[0]) then StripStart(s[1..]) else s
  }

  /** `str.rstrip()`: drops the trailing whitespace and nothing else. */
  function StripEnd(s: string): (r: string)
    ensures |r| <= |s| && r == s[..|r|]
    ensures forall i :: |r| <= i < |s| ==> IsSpace(s[i])
    ensures r == [] || !IsSpace(r[|r| - 1])
  {
    if s != [] && IsSpace(s[|s| - 1]) then StripEnd(s[..|s| - 1]) else s
  }

  predicate AllSpace(s: string) {
    forall k :: 0 <= k < |s| ==> IsSpace(s[k])
  }

  /** `str.strip()`: drops the leading and the trailing whitespace and
      nothing else. */
  function Strip(s: string): (r: string)
    ensures r == [] || (!IsSpace(r[0]) && !IsSpace(r[|r| - 1]))
    ensures exists i, j ::
      0 <= i <= j <= |s| && r == s[i..j] && AllSpace(s[..i]) && AllSpace(s[j..])
  {
    var t := StripStart(s);
    var r := StripEnd(t);
    var i, j := |s| - |t|, |s| - |t| + |r|;
    assert r == s[i..j];
    assert AllSpace(s[..i]);
    assert s[j..] == t[|r|..];
    assert AllSpace(t[|r|..]);
    r
  }

  /** A string that neither starts nor ends with whitespace is stripped
      only of a trailing newline added to it. */
  lemma StripTrailingNewline(s: string)
    requires s != [] && !IsSpace(s[0]) && !IsSpace(s[|s| - 1])
    ensures Strip(s + "\n") == s
  {
    var t := s + "\n";
    assert StripStart(t) == t;
    assert t[..|t| - 1] == s;
    assert StripEnd(t) == StripEnd(s);
    assert StripEnd(s) == s;
  }

  /** The first character of a join is that of its first piece, and the
      last that of its last piece, when both pieces are non-empty. */
  lemma JoinEdges(parts: seq<string>, d: char)
    requires |parts| >= 1 && parts[0] != [] && parts[|parts| - 1] != []
    ensures var j, p, q := Join(parts, d), parts[0], parts[|parts| - 1];
      j != [] && j[0] == p[0] && j[|j| - 1] == q[|q| - 1]
  {
    var j, q := Join(parts, d), parts[|parts| - 1];
    assert j[..|parts[0]|] == parts[0];
    JoinEndsWith(parts, d);
    assert j[|j| - 1] == j[|j| - |q|..][|q| - 1];
  }

  /** A join ends with its last piece. */
  lemma {:induction false} JoinEndsWith(parts: seq<string>, d: char)
    requires |parts| >= 1
    ensures var j, p := Join(parts, d), parts[|parts| - 1];
      |p| <= |j| && j[|j| - |p|..] == p
  {
    if |parts| > 1 {
      JoinEndsWith(parts[1..], d);
    }
  }
}
