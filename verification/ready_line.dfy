/** Detecting Geyser's "Done (" boot line: isGeyserReady of go/subprocess.go, which cuts escape
    sequences out of the line it is scanning, and strip_ansi / line_is_done of
    rust/src/subprocess.rs, which copies. Lines are sequences of characters; ESC, '[' and 'm' are
    single bytes in UTF-8, so working on bytes or on characters makes no difference to either. */
module ReadyLine {
  const ESC: char := '\U{001b}'
  const MARKER: string := "Done ("

  /** What follows the first 'm', or nothing. */
  function AfterM(s: string): (rest: string)
    ensures |rest| <= |s|
  {
    if s == "" then "" else if s[0] == 'm' then s[1..] else AfterM(s[1..])
  }

  /** One pass: every ESC and what follows it up to an 'm' disappears. */
  function GoStripped(s: string): string
    decreases |s|
  {
    if s == "" then "" else if s[0] == ESC then GoStripped(AfterM(s[1..])) else [s[0]] + GoStripped(s[1..])
  }

  /** One pass: only ESC '[' starts a sequence. */
  function RustStripped(s: string): string
    decreases |s|
  {
    if s == "" then ""
    else if s[0] == ESC && |s| > 1 && s[1] == '[' then RustStripped(AfterM(s[2..]))
    else [s[0]] + RustStripped(s[1..])
  }

  predicate OccursAt(s: string, word: string, i: int) {
    0 <= i <= |s| - |word| && s[i..i + |word|] == word
  }

  /** `word` is a substring of s. */
  ghost predicate Contains(s: string, word: string) {
    exists i :: OccursAt(s, word, i)
  }

  // ---------------------------------------------------------------- Go

  method IsGeyserReady(input: string) returns (ready: bool)
    ensures ready <==> Contains(GoStripped(input), MARKER)
  {
    var line := CutEscapes(input);
    var i := 0;
    while i + 6 <= |line|
      invariant 0 <= i
      invariant forall k :: 0 <= k < i ==> !OccursAt(line, MARKER, k)
    {
      if line[i..i + 6] == MARKER {
        assert OccursAt(line, MARKER, i);
        return true;
      }
      i := i + 1;
    }
    return false;
  }

  /** isGeyserReady's first loop: it shortens the line it runs over and steps its index back. */
  method CutEscapes(input: string) returns (line: string)
    ensures line == GoStripped(input)
  {
    line := input;
    var i := 0;
    while i < |line|
      invariant 0 <= i <= |line|
      invariant line[..i] + GoStripped(line[i..]) == GoStripped(input)
      decreases |line| - i
    {
      assert line[i..][1..] == line[i + 1..];
      if line[i] == ESC {
        var j := i + 1;
        while j < |line| && line[j] != 'm'
          invariant i < j <= |line|
          invariant AfterM(line[j..]) == AfterM(line[i + 1..])
        {
          assert line[j..][1..] == line[j + 1..];
          j := j + 1;
        }
        var cut := if j + 1 < |line| then j + 1 else |line|;
        if j < |line| { assert line[j..][1..] == line[cut..]; }
        ghost var longer := line;
        line := line[..i] + line[cut..];
        assert line[..i] == longer[..i] && line[i..] == longer[cut..] == AfterM(longer[i + 1..]);
        i := i - 1;
      } else {
        assert line[..i + 1] + GoStripped(line[i + 1..]) == line[..i] + ([line[i]] + GoStripped(line[i + 1..]));
      }
      i := i + 1;
    }
    assert line[..i] + GoStripped(line[i..]) == line;
  }

  // ---------------------------------------------------------------- Rust

  /** strip_ansi: an iterator with one character of lookahead, pushing onto `out`. */
  method StripAnsi(s: string) returns (out: string)
    ensures out == RustStripped(s)
  {
    out := "";
    var chars := s;
    while chars != ""
      invariant out + RustStripped(chars) == RustStripped(s)
      decreases |chars|
    {
      ghost var before := chars;
      var c := chars[0];
      chars := chars[1..];
      if c == ESC && chars != "" && chars[0] == '[' {
        chars := chars[1..];
        ghost var body := chars;
        assert before[2..] == body;
        var ch := '[';
        while chars != "" && ch != 'm'
          invariant if ch == 'm' then chars == AfterM(body) else AfterM(chars) == AfterM(body)
          invariant |chars| < |before|
          decreases |chars|
        {
          ch := chars[0];
          chars := chars[1..];
        }
      } else {
        assert out + ([c] + RustStripped(chars)) == out + [c] + RustStripped(chars);
        out := out + [c];
      }
    }
    assert out + "" == out;
  }

  method LineIsDone(line: string) returns (done: bool)
    ensures done <==> Contains(RustStripped(line), MARKER)
  {
    var stripped := StripAnsi(line);
    done := exists i :: 0 <= i <= |stripped| && OccursAt(stripped, MARKER, i);
  }

  // ---------------------------------------------------------------- agreement

  /** Every ESC that a scan meets outside a sequence is followed by '['. */
  predicate EscapesAreSequences(s: string)
    decreases |s|
  {
    if s == "" then true
    else if s[0] == ESC then |s| > 1 && s[1] == '[' && EscapesAreSequences(AfterM(s[2..]))
    else EscapesAreSequences(s[1..])
  }

  /** The two implementations strip a line to the same text exactly when its escapes are all
      sequences of the form ESC '['. */
  lemma {:induction false} StripsAgree(s: string)
    ensures GoStripped(s) == RustStripped(s) <==> EscapesAreSequences(s)
    decreases |s|
  {
    if s != "" {
      if s[0] == ESC && |s| > 1 && s[1] == '[' {
        assert s[1..][1..] == s[2..];
        StripsAgree(AfterM(s[2..]));
      } else if s[0] == ESC {
        NoEscapeLeft(s);
      } else {
        StripsAgree(s[1..]);
        assert ([s[0]] + GoStripped(s[1..]))[1..] == GoStripped(s[1..]);
        assert ([s[0]] + RustStripped(s[1..]))[1..] == RustStripped(s[1..]);
      }
    }
  }

  lemma {:induction false} NoEscapeLeft(s: string)
    ensures ESC !in GoStripped(s)
    decreases |s|
  {
    if s != "" {
      if s[0] == ESC { NoEscapeLeft(AfterM(s[1..])); } else { NoEscapeLeft(s[1..]); }
    }
  }

  /** On such lines Go and Rust find Geyser ready together. */
  lemma ReadyTogether(s: string)
    requires EscapesAreSequences(s)
    ensures Contains(GoStripped(s), MARKER) <==> Contains(RustStripped(s), MARKER)
  {
    StripsAgree(s);
  }

  /** On other lines they may differ: a bare ESC makes Go discard the marker that Rust sees. */
  lemma BareEscapeDisagrees()
    ensures !Contains(GoStripped([ESC] + MARKER), MARKER)
    ensures Contains(RustStripped([ESC] + MARKER), MARKER)
  {
    NoM(MARKER);
    assert ([ESC] + MARKER)[1..] == MARKER;
    assert GoStripped([ESC] + MARKER) == "";
    NoEscapes(MARKER);
    assert RustStripped([ESC] + MARKER) == [ESC] + MARKER;
    assert OccursAt([ESC] + MARKER, MARKER, 1);
  }

  /** ... and in the other direction: Go joins the marker across an ESC and an 'm' that Rust
      keeps. */
  lemma BareEscapeJoins()
    ensures Contains(GoStripped("Do" + [ESC] + "mne ("), MARKER)
    ensures !Contains(RustStripped("Do" + [ESC] + "mne ("), MARKER)
  {
    var line, tail := "Do" + [ESC] + "mne (", [ESC] + "mne (";
    TailStripped();
    assert line == ['D'] + (['o'] + tail);
    PlainHead('o', tail);
    PlainHead('D', ['o'] + tail);
    hide GoStripped, RustStripped;
    assert GoStripped(line) == MARKER && RustStripped(line) == line;
    assert OccursAt(MARKER, MARKER, 0);
    NoMarkerAcross(line);
  }

  lemma NoMarkerAcross(line: string)
    requires |line| == 8 && line[2] == ESC
    ensures !Contains(line, MARKER)
  {
    assert line[0..6][2] == ESC && line[1..7][1] == ESC && line[2..8][0] == ESC;
    assert forall i :: OccursAt(line, MARKER, i) ==> i == 0 || i == 1 || i == 2;
  }

  lemma PlainHead(c: char, s: string)
    requires c != ESC
    ensures GoStripped([c] + s) == [c] + GoStripped(s) && RustStripped([c] + s) == [c] + RustStripped(s)
  {
    assert ([c] + s)[1..] == s;
  }

  lemma TailStripped()
    ensures GoStripped([ESC] + "mne (") == "ne (" && RustStripped([ESC] + "mne (") == [ESC] + "mne ("
  {
    assert ([ESC] + "mne (")[1..] == "mne (" && "mne ("[1..] == "ne (";
    NoEscapes("ne (");
    NoEscapes("mne (");
  }

  lemma {:induction false} NoM(s: string)
    requires 'm' !in s
    ensures AfterM(s) == ""
  {
    if s != "" { NoM(s[1..]); }
  }

  lemma {:induction false} NoEscapes(s: string)
    requires ESC !in s
    ensures GoStripped(s) == s && RustStripped(s) == s
  {
    if s != "" { NoEscapes(s[1..]); }
  }
}
