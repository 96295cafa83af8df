/** Truncation of an event note (formatEventNote, pkg/controller/event_note.go). */
module EventNote {
  import opened Prelude

  const MAX_BYTES := 1024

  /** "... [truncated]" */
  const SUFFIX: Bytes := [46, 46, 46, 32, 91, 116, 114, 117, 110, 99, 97, 116, 101, 100, 93]

  /** U+FFFD */
  const REPLACEMENT: Bytes := [0xEF, 0xBF, 0xBD]

  // ---- UTF-8, section 4 of RFC 3629 ----

  predicate Tail(b: Byte) { 0x80 <= b <= 0xBF }

  /** utf8.RuneStart. */
  predicate RuneStart(b: Byte) { !Tail(b) }

  /** How many bytes a character with this first byte has; 0 if there is none. */
  function Announced(b: Byte): nat {
    if b <= 0x7F then 1
    else if 0xC2 <= b <= 0xDF then 2
    else if 0xE0 <= b <= 0xEF then 3
    else if 0xF0 <= b <= 0xF4 then 4
    else 0
  }

  /** What may follow the first byte: no overlong form, no surrogate, nothing above U+10FFFF. */
  predicate SecondAllowed(b: Byte, second: Byte) {
    && Tail(second)
    && (b == 0xE0 ==> second >= 0xA0) && (b == 0xED ==> second <= 0x9F)
    && (b == 0xF0 ==> second >= 0x90) && (b == 0xF4 ==> second <= 0x8F)
  }

  /** The size of the character at the head, or 0 if no character is there. */
  function CharSize(s: Bytes): (n: nat)
    ensures n <= |s| && n <= 4
    ensures forall i :: 0 < i < n ==> Tail(s[i])
    ensures n > 0 ==> RuneStart(s[0]) && n == Announced(s[0])
  {
    if s == [] then 0
    else
      var n := Announced(s[0]);
      if n > |s| || (n > 1 && !SecondAllowed(s[0], s[1])) then 0
      else if (n > 2 && !Tail(s[2])) || (n > 3 && !Tail(s[3])) then 0
      else n
  }

  predicate Valid(s: Bytes) { s == [] || (CharSize(s) > 0 && Valid(s[CharSize(s)..])) }

  /** strings.ToValidUTF8: each run of bytes that are no characters becomes one replacement. */
  function Repaired(s: Bytes, inRun: bool): Bytes {
    var n := CharSize(s);
    if s == [] then []
    else if n == 0 then (if inRun then [] else REPLACEMENT) + Repaired(s[1..], true)
    else s[..n] + Repaired(s[n..], false)
  }

  /** Only the bytes of a character decide its size. */
  lemma CharSizeFrame(s: Bytes, t: Bytes)
    requires CharSize(s) > 0 && CharSize(s) <= |t| && t[..CharSize(s)] == s[..CharSize(s)]
    ensures CharSize(t) == CharSize(s)
  {
  }

  lemma ValidHead(s: Bytes, rest: Bytes)
    requires CharSize(s) > 0 && Valid(rest)
    ensures Valid(s[..CharSize(s)] + rest)
  {
  }

  lemma ValidParts(s: Bytes)
    requires Valid(s) && s != []
    ensures CharSize(s) > 0 && Valid(s[CharSize(s)..])
  {
  }

  lemma {:induction false} ValidConcat(s: Bytes, t: Bytes)
    requires Valid(s) && Valid(t)
    ensures Valid(s + t)
  {
    hide Valid, CharSize;
    if s == [] {
      assert s + t == t;
    } else {
      ValidParts(s);
      var n := CharSize(s);
      ValidConcat(s[n..], t);
      ValidHead(s, s[n..] + t);
      assert s[..n] + (s[n..] + t) == s + t;
    }
  }

  lemma {:induction false} RepairedIsValid(s: Bytes, inRun: bool)
    ensures Valid(Repaired(s, inRun))
    decreases |s|
  {
    var n := CharSize(s);
    if s == [] {
    } else if n == 0 {
      RepairedIsValid(s[1..], true);
      if !inRun {
        ValidHead(REPLACEMENT, Repaired(s[1..], true));
        assert REPLACEMENT[..3] == REPLACEMENT;
      } else {
        assert [] + Repaired(s[1..], true) == Repaired(s[1..], true);
      }
    } else {
      RepairedIsValid(s[n..], false);
      ValidHead(s, Repaired(s[n..], false));
    }
  }

  lemma {:induction false} RepairKeepsValid(s: Bytes, inRun: bool)
    requires Valid(s)
    ensures Repaired(s, inRun) == s
  {
    if s != [] {
      RepairKeepsValid(s[CharSize(s)..], false);
    }
  }

  lemma {:induction false} AsciiIsValid(s: Bytes)
    requires forall i :: 0 <= i < |s| ==> s[i] <= 0x7F
    ensures Valid(s)
  {
    if s != [] {
      AsciiIsValid(s[1..]);
      assert s[CharSize(s)..] == s[1..];
    }
  }

  // ---- Boundaries between characters ----

  lemma Slices(s: Bytes, n: nat, k: nat)
    requires n <= k <= |s|
    ensures s[k..] == s[n..][k - n..] && s[..k][n..] == s[n..][..k - n] && s[..k][..n] == s[..n]
  {
  }

  /** In valid text the characters begin exactly at the bytes that may begin one. */
  lemma {:induction false} BoundaryIff(s: Bytes, k: nat)
    requires Valid(s) && k < |s|
    ensures Valid(s[..k]) <==> RuneStart(s[k])
    ensures RuneStart(s[k]) ==> Valid(s[k..])
  {
    var n := CharSize(s);
    if k >= n {
      BoundaryIff(s[n..], k - n);
      Slices(s, n, k);
      CharSizeFrame(s, s[..k]);
    } else if k == 0 {
      assert s[0..] == s;
    } else {
      assert s[..k][0] == s[0];
    }
  }

  /** No four bytes in a row are inside characters. */
  lemma {:induction false} NoLongRun(s: Bytes, k: nat)
    requires Valid(s) && k + 4 <= |s|
    ensures RuneStart(s[k]) || RuneStart(s[k + 1]) || RuneStart(s[k + 2]) || RuneStart(s[k + 3])
  {
    var n := CharSize(s);
    if k >= n {
      NoLongRun(s[n..], k - n);
    } else if k > 0 {
      assert RuneStart(s[n..][0]);
    }
  }

  /** The last boundary at or before the cutoff. */
  ghost predicate LastBoundary(s: Bytes, end: nat, cutoff: nat) {
    && end <= cutoff <= |s| && Valid(s[..end])
    && forall k :: end < k <= cutoff ==> !Valid(s[..k])
  }

  /** A character that begins at `start` and whose later bytes run up to the cutoff. */
  lemma CharAtCutoff(s: Bytes, start: nat, end: nat)
    requires Valid(s) && start < end < |s| && RuneStart(s[start])
    requires forall k :: start < k < end ==> !RuneStart(s[k])
    ensures var size := CharSize(s[start..]);
      LastBoundary(s, if start + size > end then start else end, end)
  {
    BoundaryIff(s, start);
    var rest := s[start..];
    var n := CharSize(rest);
    assert forall i :: 0 < i < n ==> s[start + i] == rest[i];
    if start + n > end {
      forall k | start < k <= end ensures !Valid(s[..k]) {
        BoundaryIff(s, k);
        assert s[k] == rest[k - start];
      }
    } else {
      assert RuneStart(s[start + n]) by { assert rest[n..][0] == s[start + n]; }
      assert start + n == end;
      BoundaryIff(s, end);
    }
  }

  lemma NoStartBeforeCutoff(s: Bytes, end: nat)
    requires Valid(s) && 3 <= end < |s| && forall k :: end - 3 <= k < end ==> !RuneStart(s[k])
    ensures LastBoundary(s, end, end)
  {
    NoLongRun(s, end - 3);
    BoundaryIff(s, end);
  }

  /** The loop that walks back from the cutoff. */
  method WalkBack(note: Bytes, cutoff: nat) returns (end: nat)
    requires Valid(note) && 4 <= cutoff < |note|
    ensures LastBoundary(note, end, cutoff) && cutoff - end < 4
  {
    end := cutoff;
    var start := end - 1;
    while start >= 0 && end - start < 4
      invariant cutoff - 4 <= start < end == cutoff
      invariant forall k :: start < k < end ==> !RuneStart(note[k])
    {
      if !RuneStart(note[start]) {
        start := start - 1;
        continue;
      }
      // What utf8.DecodeRuneInString returns, for the text is valid.
      var size := CharSize(note[start..]);
      CharAtCutoff(note, start, end);
      if start + size > end {
        end := start;
      }
      return;
    }
    NoStartBeforeCutoff(note, end);
  }

  /**
    For every formatted text: the note is valid UTF-8 of at most 1024 bytes. It is the text with its
    invalid parts replaced or, if that is too long, as many whole characters of it as fit before the
    suffix.
  */
  method FormatEventNote(text: Bytes) returns (note: Bytes)
    ensures Valid(note) && |note| <= MAX_BYTES
    ensures |Repaired(text, false)| <= MAX_BYTES ==> note == Repaired(text, false)
    ensures |Repaired(text, false)| > MAX_BYTES ==>
      exists end: nat :: LastBoundary(Repaired(text, false), end, MAX_BYTES - |SUFFIX|)
        && MAX_BYTES - |SUFFIX| - end < 4 && note == Repaired(text, false)[..end] + SUFFIX
    ensures Valid(text) && |text| <= MAX_BYTES ==> note == text
  {
    var valid := Repaired(text, false);
    RepairedIsValid(text, false);
    if Valid(text) {
      RepairKeepsValid(text, false);
    }
    if |valid| <= MAX_BYTES {
      return valid;
    }
    var end := WalkBack(valid, MAX_BYTES - |SUFFIX|);
    AsciiIsValid(SUFFIX);
    hide Valid;
    ValidConcat(valid[..end], SUFFIX);
    note := valid[..end] + SUFFIX;
  }
}
