/** How `upload_file` turns the client's file name into the name it stores:
    sanitisation (basename, character replacement, fallback) and collision
    resolution (`stem-2.ext`, `stem-3.ext`, ...). */
module Filenames {
  import opened Options
  import opened Text
  import Decimal

  predicate IsAscii(c: char) {
    c < '\U{80}'
  }

  predicate IsAsciiWordChar(c: char) {
    'a' <= c <= 'z' || 'A' <= c <= 'Z' || '0' <= c <= '9' || c == '_'
  }

  /** The character class `\w` of a Python 3 `str` pattern. It is
      Unicode-aware, so it is left abstract: any predicate that agrees with
      `[A-Za-z0-9_]` on ASCII and is free on every other character. */
  type WordClass = w: char -> bool
    | forall c :: IsAscii(c) ==> (w(c) <==> IsAsciiWordChar(c))
    witness IsAsciiWordChar

  /** The characters `[^\w.\-]` does not match. */
  predicate Kept(w: WordClass, c: char) {
    w(c) || c == '.' || c == '-'
  }

  lemma SlashAndSpaceNotKept(w: WordClass)
    ensures !Kept(w, '/') && !Kept(w, ' ')
  {
    assert IsAscii('/') && IsAscii(' ');
  }

  /** The name stored when the client sends none, or one that sanitises to
      nothing usable. */
  const DefaultName: string := "photo.jpg"

  /** `file.filename or "photo.jpg"`: a missing or empty name is replaced. */
  function RawName(filename: Option<string>): (raw: string)
    ensures raw != []
    ensures filename.Some? && filename.value != [] ==> raw == filename.value
    ensures filename.None? || filename.value == [] ==> raw == DefaultName
  {
    if filename.None? || filename.value == [] then DefaultName else filename.value
  }

  /** The last path component that is neither empty nor `.`, or the empty
      string when there is none. */
  function LastComponent(parts: seq<string>): (name: string)
    ensures name == [] || name in parts
    ensures name != "."
  {
    if parts == [] then []
    else
      var p := parts[|parts| - 1];
      if p == [] || p == "." then LastComponent(parts[..|parts| - 1]) else p
  }

  /** `PurePosixPath(path).name`: pathlib drops empty and `.` components,
      so trailing and repeated slashes are ignored, while `..` is a name. */
  function Basename(path: string): (name: string)
    ensures '/' !in name && name != "."
  {
    var parts := Split(path, '/');
    var name := LastComponent(parts);
    assert name != [] ==> '/' !in name;
    name
  }

  /** A trailing `/` or `/.` does not change the basename. */
  lemma BasenameTrailingSlash(p: string)
    ensures Basename(p + "/") == Basename(p)
    ensures Basename(p + "/.") == Basename(p)
  {
    var parts := Split(p, '/');
    assert p + "/" == p + ['/'] + [];
    SplitAround(p, [], '/');
    assert Split(p + "/", '/') == parts + [[]];
    assert (parts + [[]])[..|parts|] == parts;
    assert p + "/." == p + ['/'] + ".";
    SplitAround(p, ".", '/');
    NoSeparatorSplit(".", '/');
    assert Split(p + "/.", '/') == parts + ["."];
    assert (parts + ["."])[..|parts|] == parts;
  }

  /** A path with no usable component has the empty name. */
  lemma BasenameEmptyCases()
    ensures Basename("") == [] && Basename(".") == []
  {
    NoSeparatorSplit(".", '/');
  }

  /** A name with no slash that is neither empty nor `.` is its own basename. */
  lemma BasenameOfName(s: string)
    requires '/' !in s && s != [] && s != "."
    ensures Basename(s) == s
  {
    NoSeparatorSplit(s, '/');
    assert Split(s, '/')[..0] == [];
  }

  /** `re.sub(r'[^\w.\-]', '_', s)`. */
  function Replace(w: WordClass, s: string): (r: string)
    ensures |r| == |s|
    ensures forall i :: 0 <= i < |s| ==> Kept(w, r[i])
    ensures forall i :: 0 <= i < |s| ==> (Kept(w, s[i]) ==> r[i] == s[i]) && (!Kept(w, s[i]) ==> r[i] == '_')
    ensures (forall i :: 0 <= i < |s| ==> Kept(w, s[i])) ==> r == s
  {
    assert IsAscii('_') && IsAsciiWordChar('_');
    seq(|s|, i requires 0 <= i < |s| => if Kept(w, s[i]) then s[i] else '_')
  }

  /** The basename the replacement works on. */
  function BaseOf(filename: Option<string>): string {
    Basename(RawName(filename))
  }

  /** The stored name before collision resolution. */
  function Sanitize(w: WordClass, filename: Option<string>): (name: string)
    ensures name != [] && name[0] != '.'
    ensures forall i :: 0 <= i < |name| ==> Kept(w, name[i])
    // the fallback fires exactly when the basename is empty or starts with a dot
    ensures var b := BaseOf(filename);
      if b == [] || b[0] == '.' then name == DefaultName
      else |name| == |b| &&
           forall i :: 0 <= i < |b| ==>
             (Kept(w, b[i]) ==> name[i] == b[i]) && (!Kept(w, b[i]) ==> name[i] == '_')
  {
    var name := Replace(w, BaseOf(filename));
    if name == [] || name[0] == '.' then
      assert forall c :: c in DefaultName ==> (IsAscii(c) && IsAsciiWordChar(c)) || c == '.';
      DefaultName
    else name
  }

  /** The stored name has no slash and no space. */
  lemma SanitizedHasNoSlashOrSpace(w: WordClass, filename: Option<string>)
    ensures '/' !in Sanitize(w, filename) && ' ' !in Sanitize(w, filename)
  {
    SlashAndSpaceNotKept(w);
  }

  /** Sanitising a sanitised name changes nothing. */
  lemma SanitizeIdempotent(w: WordClass, filename: Option<string>)
    ensures Sanitize(w, Some(Sanitize(w, filename))) == Sanitize(w, filename)
  {
    var n := Sanitize(w, filename);
    SlashAndSpaceNotKept(w);
    assert RawName(Some(n)) == n;
    BasenameOfName(n);
    assert Replace(w, n) == n;
  }

  lemma DefaultNameKept(w: WordClass)
    ensures Replace(w, DefaultName) == DefaultName
  {
  }

  /** A missing or empty client name is stored as the default name. */
  lemma MissingNameIsDefault(w: WordClass)
    ensures Sanitize(w, None) == DefaultName
    ensures Sanitize(w, Some([])) == DefaultName
  {
    BasenameOfName(DefaultName);
    assert BaseOf(None) == DefaultName && BaseOf(Some([])) == DefaultName;
    DefaultNameKept(w);
    SanitizeWithoutFallback(w, None);
    SanitizeWithoutFallback(w, Some([]));
  }

  /** Without the fallback, the stored name is the replaced basename. */
  lemma SanitizeWithoutFallback(w: WordClass, filename: Option<string>)
    requires BaseOf(filename) != [] && BaseOf(filename)[0] != '.'
    ensures Sanitize(w, filename) == Replace(w, BaseOf(filename))
  {
  }

  /** Whatever precedes the last slash does not matter. */
  lemma BasenameAfterSlash(p: string, t: string)
    requires '/' !in t && t != [] && t != "."
    ensures Basename(p + "/" + t) == t
  {
    SplitAround(p, t, '/');
    NoSeparatorSplit(t, '/');
  }

  /** Directory components, `..` included, are stripped. */
  lemma DirectoriesStripped(w: WordClass, p: string, t: string)
    requires '/' !in t && t != [] && t != "."
    ensures Sanitize(w, Some(p + "/" + t)) == Sanitize(w, Some(t))
  {
    BasenameAfterSlash(p, t);
    BasenameOfName(t);
  }

  lemma PlainNameExample(w: WordClass)
    ensures Sanitize(w, Some("passwd")) == "passwd"
  {
    BasenameOfName("passwd");
    SanitizeWithoutFallback(w, Some("passwd"));
    assert Replace(w, "passwd") == "passwd";
  }

  lemma DotDotPathExample(w: WordClass)
    ensures Sanitize(w, Some("../../etc/passwd")) == "passwd"
  {
    assert "../../etc/passwd" == "../../etc" + "/" + "passwd";
    DirectoriesStripped(w, "../../etc", "passwd");
    PlainNameExample(w);
  }

  lemma HiddenNameExample(w: WordClass)
    ensures Sanitize(w, Some(".hidden")) == DefaultName
  {
    BasenameOfName(".hidden");
  }

  /** The root and the current directory have no name, so they fall back
      to the default name. */
  lemma NamelessPathExample(w: WordClass)
    ensures Sanitize(w, Some("/")) == DefaultName
    ensures Sanitize(w, Some(".")) == DefaultName
  {
    BasenameEmptyCases();
    BasenameTrailingSlash("");
    assert "" + "/" == "/";
  }

  lemma SpecialCharactersReplaced(w: WordClass)
    ensures Replace(w, "a b#c.png") == "a_b_c.png"
  {
    assert IsAscii(' ') && IsAscii('#');
  }

  lemma SpecialCharactersExample(w: WordClass)
    ensures Sanitize(w, Some("a b#c.png")) == "a_b_c.png"
  {
    BasenameOfName("a b#c.png");
    SanitizeWithoutFallback(w, Some("a b#c.png"));
    SpecialCharactersReplaced(w);
  }

  /** `str.rfind(c)`: the last index holding `c`, or -1. */
  function LastIndexOf(s: string, c: char): (i: int)
    ensures -1 <= i < |s|
    ensures i >= 0 ==> s[i] == c
    ensures forall j :: i < j < |s| ==> s[j] != c
  {
    if s == [] then -1
    else if s[|s| - 1] == c then |s| - 1
    else LastIndexOf(s[..|s| - 1], c)
  }

  /** Where `Path(name).suffix` starts: at the last dot, provided it is
      neither the first nor the last character; otherwise the suffix is
      empty. */
  function SuffixStart(name: string): (p: nat)
    ensures p <= |name|
  {
    var i := LastIndexOf(name, '.');
    if 0 < i < |name| - 1 then i else |name|
  }

  /** `Path(name).stem`: a prefix of the name, empty only for the empty
      name. */
  function Stem(name: string): (st: string)
    ensures st <= name
    ensures st == [] <==> name == []
  {
    name[..SuffixStart(name)]
  }

  /** `Path(name).suffix`: from the last dot on, when that dot is neither
      the first nor the last character. */
  function Suffix(name: string): (ext: string)
    ensures Stem(name) + ext == name
    ensures ext == [] || (ext[0] == '.' && |ext| >= 2 && '.' !in ext[1..] && Stem(name) != [])
  {
    name[SuffixStart(name)..]
  }

  /** The suffix is non-empty exactly when the last dot lies strictly
      inside the name. */
  lemma SuffixRule(name: string)
    ensures Suffix(name) != [] <==>
      exists i :: 0 < i < |name| - 1 && name[i] == '.' && '.' !in name[i + 1..]
  {
    var l := LastIndexOf(name, '.');
    if Suffix(name) != [] {
      assert '.' !in name[l + 1..];
    }
  }

  lemma StemSuffixExamples()
    ensures Stem("a.jpg") == "a" && Suffix("a.jpg") == ".jpg"
    ensures Suffix("archive.tar.gz") == ".gz"
    ensures Stem("notes.") == "notes." && Suffix("notes.") == ""
    ensures Stem("README") == "README" && Suffix("README") == ""
  {
    assert "a.jpg"[1] == '.' && "a.jpg"[2..] == "jpg";
    assert LastIndexOf("a.jpg", '.') == 1;
    assert "archive.tar.gz"[11] == '.' && "archive.tar.gz"[12..] == "gz";
    assert LastIndexOf("archive.tar.gz", '.') == 11;
    assert "notes."[5] == '.';
    assert LastIndexOf("notes.", '.') == 5;
    assert '.' !in "README";
    assert LastIndexOf("README", '.') == -1;
  }

  /** The k-th name tried: the sanitised name itself first, then
      `stem-k.suffix` for k = 2, 3, ...; stem and suffix always come from
      the sanitised name, so suffixes never stack. */
  function Candidate(name: string, k: nat): (c: string)
    requires k >= 1
    ensures c == name <==> k == 1
  {
    assert |Stem(name) + Suffix(name)| == |name|;
    if k == 1 then name else Stem(name) + "-" + Decimal.Render(k) + Suffix(name)
  }

  lemma CandidateExamples()
    ensures Candidate("a.jpg", 2) == "a-2.jpg"
    ensures Candidate("a.jpg", 3) == "a-3.jpg"
    ensures Candidate("a.jpg", 12) == "a-12.jpg"
  {
    StemSuffixExamples();
  }

  /** Different attempts never produce the same name. */
  lemma CandidateInjective(name: string, i: nat, j: nat)
    requires i >= 1 && j >= 1
    ensures Candidate(name, i) == Candidate(name, j) <==> i == j
  {
    if i != j && Candidate(name, i) == Candidate(name, j) {
      var st, ext := Stem(name), Suffix(name);
      if i != 1 && j != 1 {
        var x := Candidate(name, i);
        assert x == st + "-" + Decimal.Render(i) + ext;
        assert x[|st| + 1..|x| - |ext|] == Decimal.Render(i);
        assert x == st + "-" + Decimal.Render(j) + ext;
        assert x[|st| + 1..|x| - |ext|] == Decimal.Render(j);
        Decimal.RenderInjective(i, j);
      }
    }
  }

  /** The first attempt from `k` on that is not in `rem`. Each taken attempt
      is removed from `rem`, which therefore bounds the search. */
  function FreeFrom(name: string, rem: set<string>, k: nat): (r: nat)
    requires k >= 1
    ensures r >= k
    decreases rem
  {
    if Candidate(name, k) in rem then FreeFrom(name, rem - {Candidate(name, k)}, k + 1) else k
  }

  /** The attempt number at which the collision loop stops. */
  function FreeIndex(name: string, existing: set<string>): (k: nat)
    ensures k >= 1
    ensures k == 1 <==> name !in existing
  {
    FreeFrom(name, existing, 1)
  }

  /** The name the collision loop stores under. */
  function FreeName(name: string, existing: set<string>): (n: string)
    ensures n == name <==> name !in existing
  {
    Candidate(name, FreeIndex(name, existing))
  }

  lemma {:induction false} FreeFromSpec(name: string, existing: set<string>, rem: set<string>, k: nat)
    requires k >= 1 && rem <= existing && |existing| - |rem| == k - 1
    requires forall j: nat :: 1 <= j < k ==> Candidate(name, j) in existing
    requires forall j: nat :: j >= k ==> (Candidate(name, j) in rem <==> Candidate(name, j) in existing)
    ensures var r := FreeFrom(name, rem, k);
      && r <= |existing| + 1
      && Candidate(name, r) !in existing
      && forall j: nat :: 1 <= j < r ==> Candidate(name, j) in existing
    decreases rem
  {
    var c := Candidate(name, k);
    if c in rem {
      var rem' := rem - {c};
      forall j: nat | j >= k + 1
        ensures Candidate(name, j) in rem' <==> Candidate(name, j) in existing
      {
        CandidateInjective(name, j, k);
      }
      FreeFromSpec(name, existing, rem', k + 1);
    }
  }

  /** The stored name is free; every earlier attempt was taken; the loop
      counter (one more than the attempt number) stays within the number of
      existing names plus two. */
  lemma FreeIndexSpec(name: string, existing: set<string>)
    ensures FreeIndex(name, existing) <= |existing| + 1
    ensures FreeName(name, existing) !in existing
    ensures forall j: nat :: 1 <= j < FreeIndex(name, existing) ==> Candidate(name, j) in existing
    ensures name !in existing ==> FreeName(name, existing) == name
  {
    FreeFromSpec(name, existing, existing, 1);
  }

  /** After n uploads under one sanitised name (stored as the name, then
      `-2`, ..., `-n`), the next upload is stored as attempt n + 1. */
  lemma RepeatedUploads(name: string, n: nat)
    ensures FreeIndex(name, set j: nat | 1 <= j <= n :: Candidate(name, j)) == n + 1
  {
    var existing := set j: nat | 1 <= j <= n :: Candidate(name, j);
    FreeIndexSpec(name, existing);
    var r := FreeIndex(name, existing);
    if r > n + 1 {
      assert Candidate(name, n + 1) in existing;
      var j: nat :| 1 <= j <= n && Candidate(name, j) == Candidate(name, n + 1);
      CandidateInjective(name, j, n + 1);
    }
  }

  /** The `while dest.exists()` loop of `upload_file`. */
  method ResolveDestination(name: string, existing: set<string>) returns (dest: string)
    ensures dest == FreeName(name, existing)
    ensures dest !in existing
  {
    FreeIndexSpec(name, existing);
    dest := name;
    var counter: nat := 2;
    while dest in existing
      invariant 2 <= counter <= FreeIndex(name, existing) + 1
      invariant counter <= |existing| + 2
      invariant dest == Candidate(name, counter - 1)
      invariant forall j: nat :: 1 <= j < counter - 1 ==> Candidate(name, j) in existing
      decreases FreeIndex(name, existing) + 1 - counter
    {
      dest := Stem(name) + "-" + Decimal.Render(counter) + Suffix(name);
      counter := counter + 1;
    }
  }
}
