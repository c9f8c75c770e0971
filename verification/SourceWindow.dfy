/** The window of a source file that is shown around a cited span. */
module SourceWindow {

  const MAX_EVIDENCE_BYTES: nat := 256 * 1024
  const CHUNK: nat := 64 * 1024

  type Bytes = seq<bv8>

  datatype Window = Window(text: Bytes, start: nat, startLine: nat, truncated: bool)

  function Min(a: nat, b: nat): nat { if a <= b then a else b }

  /** Subtraction that stops at zero. */
  function SatSub(a: nat, b: nat): nat { if a >= b then a - b else 0 }

  function WindowStart(len: nat, from: nat, to: nat): nat {
    if len <= MAX_EVIDENCE_BYTES then 0
    else Min(SatSub(from, SatSub(MAX_EVIDENCE_BYTES, SatSub(to, from)) / 2), len)
  }

  function Newlines(s: Bytes): nat {
    if s == [] then 0 else Newlines(s[..|s| - 1]) + if s[|s| - 1] == 10 then 1 else 0
  }

  lemma {:induction false} NewlinesAppend(a: Bytes, b: Bytes)
    ensures Newlines(a + b) == Newlines(a) + Newlines(b)
  {
    if b == [] {
      assert a + b == a;
    } else {
      assert (a + b)[..|a + b| - 1] == a + b[..|b| - 1];
      NewlinesAppend(a, b[..|b| - 1]);
    }
  }

  /** Count the newlines before `start`, one bounded chunk at a time. */
  method LinesBefore(file: Bytes, start: nat) returns (newlines: nat)
    requires start <= |file|
    ensures newlines == Newlines(file[..start])
  {
    newlines := 0;
    var at, remaining := 0, start;
    while remaining > 0
      invariant at + remaining == start
      invariant newlines == Newlines(file[..at])
    {
      var take := Min(CHUNK, remaining);
      var chunk := file[at..at + take];
      NewlinesAppend(file[..at], chunk);
      assert file[..at + take] == file[..at] + chunk;
      newlines := newlines + Newlines(chunk);
      at, remaining := at + take, remaining - take;
    }
  }

  /** Any span may be asked for. The window lies inside the file and is bounded;
      it is the whole file exactly when it is not truncated; its line number is
      the file's; and a span that lies in the file is shown whole exactly when
      it is no longer than the bound. */
  method ReadSource(file: Bytes, from: nat, to: nat) returns (w: Window)
    ensures w.start + |w.text| <= |file| && w.text == file[w.start..w.start + |w.text|]
    ensures |w.text| <= MAX_EVIDENCE_BYTES
    ensures w.truncated <==> w.text != file
    ensures w.startLine == 1 + Newlines(file[..w.start])
    ensures from <= to <= |file| ==>
              (w.start <= from && to <= w.start + |w.text| <==> to - from <= MAX_EVIDENCE_BYTES)
    ensures from <= |file| ==> w.start <= from
    ensures |w.text| == MAX_EVIDENCE_BYTES || w.start + |w.text| == |file|
    ensures |file| <= MAX_EVIDENCE_BYTES ==> w.start == 0
    ensures |file| > MAX_EVIDENCE_BYTES && from <= to <= |file| && to - from <= MAX_EVIDENCE_BYTES ==>
              var context := (MAX_EVIDENCE_BYTES - (to - from)) / 2;
              w.start == if context <= from then from - context else 0
  {
    var start := WindowStart(|file|, from, to);
    var length := Min(MAX_EVIDENCE_BYTES, |file| - start);
    var newlines := 0;
    if start > 0 { newlines := LinesBefore(file, start); }
    w := Window(file[start..start + length], start, 1 + newlines, start > 0 || start + length < |file|);
    assert !w.truncated ==> w.text == file;
    assert w.truncated ==> |w.text| < |file|;
  }

  /** Newlines are the bytes 10. */
  lemma {:induction false} NewlinesAre(s: Bytes)
    ensures Newlines(s) == |set i: nat | i < |s| && s[i] == 10|
  {
    var here := set i: nat | i < |s| && s[i] == 10;
    if s == [] {
      assert here == {};
    } else {
      var front := s[..|s| - 1];
      NewlinesAre(front);
      assert here == (set i: nat | i < |front| && front[i] == 10) + if s[|front|] == 10 then {|front|} else {};
    }
  }
}
