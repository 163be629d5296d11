/** The `/upload` handler: a size-limited chunk loop and a single write into
    the upload directory, modelled as a map from stored name to bytes. */
module Uploads {
  import opened Options
  import opened Filenames

  newtype byte = b: int | 0 <= b < 256

  /** `MAX_UPLOAD_SIZE`: 20 MiB. */
  const MaxUploadSize: nat := 20 * 1024 * 1024

  /** `UPLOAD_DIR`. */
  const UploadRoot: string := "/tmp/claude-uploads"

  const TooLargeMessage: string := "File too large (max 20MB)"

  /** The chunks the loop consumes from a sequence of reads: every read up to
      the first empty one, which marks the end of the stream. Reads after it
      are never made. */
  function Consumed(stream: seq<seq<byte>>): (cs: seq<seq<byte>>)
    ensures |cs| <= |stream| && cs == stream[..|cs|]
    ensures forall i :: 0 <= i < |cs| ==> cs[i] != []
    ensures |cs| < |stream| ==> stream[|cs|] == []
  {
    if stream == [] || stream[0] == [] then [] else [stream[0]] + Consumed(stream[1..])
  }

  /** The running total of the loop once it has read `cs`: no single chunk
      is longer than it. */
  function TotalLength(cs: seq<seq<byte>>): (n: nat)
    ensures forall i :: 0 <= i < |cs| ==> |cs[i]| <= n
  {
    if cs == [] then 0
    else
      var init := cs[..|cs| - 1];
      assert forall i :: 0 <= i < |init| ==> init[i] == cs[i];
      TotalLength(init) + |cs[|cs| - 1]|
  }

  /** `b"".join(cs)`: empty exactly when every chunk is. */
  function Concat(cs: seq<seq<byte>>): (data: seq<byte>)
    ensures data == [] <==> forall i :: 0 <= i < |cs| ==> cs[i] == []
  {
    if cs == [] then []
    else
      var init := cs[..|cs| - 1];
      assert forall i :: 0 <= i < |init| ==> init[i] == cs[i];
      Concat(init) + cs[|cs| - 1]
  }

  /** The bytes written are as many as the running total counted. */
  lemma {:induction false} ConcatLength(cs: seq<seq<byte>>)
    ensures |Concat(cs)| == TotalLength(cs)
  {
    if cs != [] {
      ConcatLength(cs[..|cs| - 1]);
    }
  }

  /** The running total never decreases, so exceeding the limit at some
      chunk means the whole stream exceeds it. */
  lemma {:induction false} TotalLengthPrefix(cs: seq<seq<byte>>, n: nat)
    requires n <= |cs|
    ensures TotalLength(cs[..n]) <= TotalLength(cs)
  {
    if n < |cs| {
      var init := cs[..|cs| - 1];
      assert cs[..n] == init[..n];
      assert TotalLength(cs) == TotalLength(init) + |cs[|cs| - 1]|;
      TotalLengthPrefix(init, n);
    } else {
      assert cs[..n] == cs;
    }
  }

  /** Concatenation is in read order: each chunk sits right after the ones
      read before it. */
  lemma {:induction false} ConcatAppend(cs: seq<seq<byte>>, c: seq<byte>)
    ensures Concat(cs + [c]) == Concat(cs) + c
  {
    assert (cs + [c])[..|cs|] == cs;
  }

  /** The `while chunk := await file.read(...)` loop: `None` is the
      `{"error": ...}` return, `Some(data)` the bytes that `write_bytes`
      receives. */
  method ReadChunks(stream: seq<seq<byte>>) returns (data: Option<seq<byte>>)
    ensures data.None? <==> TotalLength(Consumed(stream)) > MaxUploadSize
    ensures data.Some? ==> data.value == Concat(Consumed(stream)) && |data.value| <= MaxUploadSize
  {
    var chunks: seq<seq<byte>> := [];
    var total: nat := 0;
    var i := 0;
    while i < |stream| && stream[i] != []
      invariant i <= |stream|
      invariant chunks == stream[..i]
      invariant forall j :: 0 <= j < i ==> stream[j] != []
      invariant total == TotalLength(chunks) <= MaxUploadSize
    {
      var chunk := stream[i];
      total := total + |chunk|;
      if total > MaxUploadSize {
        var cs := Consumed(stream);
        assert |cs| > i;
        assert cs[..i + 1] == chunks + [chunk];
        TotalLengthPrefix(cs, i + 1);
        return None;
      }
      chunks := chunks + [chunk];
      i := i + 1;
    }
    assert Consumed(stream) == chunks;
    ConcatLength(chunks);
    return Some(Concat(chunks));
  }

  datatype UploadReply =
    | Stored(name: string, path: string)   // {"name": ..., "path": ...}
    | Failed(error: string)                // {"error": ...}

  /** The upload directory. `wordChars` is the `\w` class of the regular
      expression engine the sanitiser uses. */
  class UploadDir {
    const wordChars: WordClass
    var files: map<string, seq<byte>>

    constructor (wordChars: WordClass, files: map<string, seq<byte>>)
      ensures this.wordChars == wordChars && this.files == files
    {
      this.wordChars := wordChars;
      this.files := files;
    }

    /** `upload_file`: sanitise, resolve collisions against the names present
        now, read the stream, then either report the size error and write
        nothing, or write exactly one new entry. */
    method Upload(filename: Option<string>, stream: seq<seq<byte>>) returns (reply: UploadReply)
      modifies this
      ensures var name := FreeName(Sanitize(wordChars, filename), old(files).Keys);
        if TotalLength(Consumed(stream)) > MaxUploadSize then
          reply == Failed(TooLargeMessage) && files == old(files)
        else
          && reply == Stored(name, UploadRoot + "/" + name)
          && name !in old(files)
          && files == old(files)[name := Concat(Consumed(stream))]
          && |files[name]| <= MaxUploadSize
    {
      var name := Sanitize(wordChars, filename);
      var dest := ResolveDestination(name, files.Keys);
      var data := ReadChunks(stream);
      if data.None? {
        return Failed(TooLargeMessage);
      }
      files := files[dest := data.value];
      reply := Stored(dest, UploadRoot + "/" + dest);
    }
  }

  lemma PlainJpgName(w: WordClass)
    ensures Sanitize(w, Some("a.jpg")) == "a.jpg"
  {
    BasenameOfName("a.jpg");
    SanitizeWithoutFallback(w, Some("a.jpg"));
    assert Replace(w, "a.jpg") == "a.jpg";
  }

  lemma SecondJpgName()
    ensures FreeName("a.jpg", {"a.jpg"}) == "a-2.jpg"
  {
    FreeIndexSpec("a.jpg", {"a.jpg"});
    CandidateExamples();
  }

  lemma ThirdJpgName()
    ensures FreeName("a.jpg", {"a.jpg", "a-2.jpg"}) == "a-3.jpg"
  {
    var existing := {"a.jpg", "a-2.jpg"};
    FreeIndexSpec("a.jpg", existing);
    CandidateExamples();
  }

  /** Three uploads named "a.jpg" into an empty directory are stored as
      "a.jpg", "a-2.jpg" and "a-3.jpg", and none overwrites another. */
  method RepeatedUploadExample(w: WordClass)
  {
    var dir := new UploadDir(w, map[]);
    var photo: seq<seq<byte>> := [[1, 2, 3]];
    assert Consumed(photo) == photo;
    PlainJpgName(w);
    FreeIndexSpec("a.jpg", {});
    SecondJpgName();
    ThirdJpgName();
    var r1 := dir.Upload(Some("a.jpg"), photo);
    assert r1.name == "a.jpg" && dir.files.Keys == {"a.jpg"};
    var r2 := dir.Upload(Some("a.jpg"), photo);
    assert r2.name == "a-2.jpg" && dir.files.Keys == {"a.jpg", "a-2.jpg"};
    var r3 := dir.Upload(Some("a.jpg"), photo);
    assert r3.name == "a-3.jpg" && |dir.files| == 3;
  }
}
