/** Cutting a stream into lines: the incremental splitter of the TypeScript SDK and the Go scanner. */
module Lines {
  import opened Seqs

  /** The first position of `c` in `s`, or `|s|` when it does not occur. */
  function IndexOf(s: string, c: char): (i: nat)
    ensures i <= |s|
    ensures i < |s| ==> s[i] == c
    ensures forall k | 0 <= k < i :: s[k] != c
  {
    if s == [] || s[0] == c then 0
    else 1 + IndexOf(s[1..], c)
  }

  lemma IndexOfUnique(s: string, c: char, i: nat)
    requires i <= |s| && (forall k | 0 <= k < i :: s[k] != c) && (i < |s| ==> s[i] == c)
    ensures IndexOf(s, c) == i
  {
  }

  /** Every line of `s` that an LF ends, without the LF. */
  function Cut(s: string): seq<string>
    decreases |s|
  {
    var i := IndexOf(s, '\n');
    if i == |s| then [] else [s[..i]] + Cut(s[i + 1..])
  }

  /** What follows the last LF of `s`. */
  function Rest(s: string): string
    decreases |s|
  {
    var i := IndexOf(s, '\n');
    if i == |s| then s else Rest(s[i + 1..])
  }

  /** Cutting is incremental: an unfinished line is kept and continued by what arrives next. */
  lemma {:induction false} CutConcat(a: string, b: string)
    ensures Cut(a + b) == Cut(a) + Cut(Rest(a) + b)
    ensures Rest(a + b) == Rest(Rest(a) + b)
    decreases |a|
  {
    var i := IndexOf(a, '\n');
    if i < |a| {
      var s := a + b;
      assert s[..i] == a[..i];
      IndexOfUnique(s, '\n', i);
      assert s[i + 1..] == a[i + 1..] + b;
      CutConcat(a[i + 1..], b);
      Assoc([a[..i]], Cut(a[i + 1..]), Cut(Rest(a) + b));
    } else {
      Nil(Cut(a + b));
    }
  }

  /** The lines of a prefix of a stream are a prefix of the lines of the stream. */
  lemma CutPrefix(text: string, wire: string)
    requires text <= wire
    ensures Cut(text) <= Cut(wire)
  {
    CutConcat(text, wire[|text|..]);
    assert text + wire[|text|..] == wire;
  }

  /** One line, its LF still to be written. */
  lemma CutLine(line: string, s: string)
    requires '\n' !in line
    ensures Cut(line + "\n" + s) == [line] + Cut(s)
    ensures Rest(line + "\n" + s) == Rest(s)
  {
    var t := line + "\n" + s;
    assert t[..|line|] == line;
    assert forall k | 0 <= k < |line| :: t[k] == line[k];
    IndexOfUnique(t, '\n', |line|);
    assert t[|line| + 1..] == s;
  }

  /** TypeScript removes one CR at the end of a line. */
  function TrimOne(line: string): string {
    if line != [] && line[|line| - 1] == '\r' then line[..|line| - 1] else line
  }

  /** Go removes every CR at the end of a line. */
  function TrimAll(line: string): string {
    if line != [] && line[|line| - 1] == '\r' then TrimAll(line[..|line| - 1]) else line
  }

  /** The two trims differ exactly on lines that end in two CRs. */
  lemma TrimsDiffer(line: string)
    ensures TrimOne(line) != TrimAll(line) <==>
            |line| >= 2 && line[|line| - 1] == '\r' && line[|line| - 2] == '\r'
  {
    TrimAllShorter(line);
    if line != [] && line[|line| - 1] == '\r' {
      var l := line[..|line| - 1];
      TrimAllShorter(l);
      if l != [] && l[|l| - 1] == '\r' { TrimAllShorter(l[..|l| - 1]); }
    }
  }

  lemma {:induction false} TrimAllShorter(line: string)
    ensures |TrimAll(line)| <= |line|
  {
    if line != [] && line[|line| - 1] == '\r' { TrimAllShorter(line[..|line| - 1]); }
  }

  /** The Go scanner's buffer: a line that fills it ends the scan with an error. One char stands for one byte. */
  const SCANNER_BUFFER: nat := 1024 * 1024

  predicate Fits(line: string) {
    |line| < SCANNER_BUFFER
  }

  /** The lines before the first one the scanner cannot hold. */
  function Scannable(lines: seq<string>): seq<string> {
    if lines == [] || !Fits(lines[0]) then [] else [lines[0]] + Scannable(lines[1..])
  }

  lemma {:induction false} ScannablePrefix(lines: seq<string>)
    ensures Scannable(lines) <= lines
    ensures (forall l <- lines :: Fits(l)) <==> Scannable(lines) == lines
  {
    if lines != [] {
      ScannablePrefix(lines[1..]);
      assert lines == [lines[0]] + lines[1..];
      if Scannable(lines) == lines && Fits(lines[0]) {
        assert Scannable(lines[1..]) == lines[1..];
      }
    }
  }

  /** Scanning stops at the first line that does not fit, wherever the lines came from. */
  lemma {:induction false} ScannableConcat(a: seq<string>, b: seq<string>)
    ensures Scannable(a + b) == Scannable(a) + (if Scannable(a) == a then Scannable(b) else [])
    decreases |a|
  {
    if a == [] {
      Nil(b);
      Nil(Scannable(b));
    } else {
      ConcatTail(a, b);
      if Fits(a[0]) {
        ScannableConcat(a[1..], b);
        HeadTail(a);
        Cons(a[0], Scannable(a[1..]));
        Assoc([a[0]], Scannable(a[1..]), if Scannable(a[1..]) == a[1..] then Scannable(b) else []);
      }
    }
  }

  /** The lines the Go scanner sees when reading stops: an unfinished last line counts as a line. */
  function ScanLines(text: string): seq<string> {
    Cut(text) + (if Rest(text) == "" then [] else [Rest(text)])
  }

  /** A line fits when it is shorter than a mebibyte. */
  lemma FitsExactly(line: string)
    ensures Fits(line) <==> |line| < 1_048_576
  {
  }

  /** Go's trim leaves the line that a run of CRs was put after. */
  lemma {:induction false} TrimAllExactly(line: string)
    ensures TrimAll(line) <= line
    ensures forall k | |TrimAll(line)| <= k < |line| :: line[k] == '\r'
    ensures TrimAll(line) == "" || TrimAll(line)[|TrimAll(line)| - 1] != '\r'
  {
    if line != "" && line[|line| - 1] == '\r' {
      var front := line[..|line| - 1];
      TrimAllExactly(front);
    }
  }
}
