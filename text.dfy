/** String helpers the bulk shipper relies on: Python's `str.rstrip` with a
    single character, and the newline-delimited line structure that the
    Elasticsearch bulk API reads from a request body. */
module Text {

  /** Removes every trailing occurrence of `c`, as `s.rstrip(c)` does.
      The result is the longest prefix of `s` that does not end in `c`. */
  function RStrip(s: string, c: char): (r: string)
    ensures r <= s
    ensures r == [] || r[|r| - 1] != c
    ensures forall k :: |r| <= k < |s| ==> s[k] == c
    decreases |s|
  {
    if |s| > 0 && s[|s| - 1] == c then RStrip(s[..|s| - 1], c) else s
  }

  /** The three properties in RStrip's contract determine its result. */
  lemma RStripUnique(s: string, c: char, r: string)
    requires r <= s
    requires r == [] || r[|r| - 1] != c
    requires forall k :: |r| <= k < |s| ==> s[k] == c
    ensures r == RStrip(s, c)
  {
  }

  /** Stripping an already-stripped string changes nothing. */
  lemma RStripIdempotent(s: string, c: char)
    ensures RStrip(RStrip(s, c), c) == RStrip(s, c)
  {
  }

  /** Extra trailing copies of `c` make no difference. */
  lemma {:induction false} RStripAppend(s: string, c: char, tail: string)
    requires forall k :: 0 <= k < |tail| ==> tail[k] == c
    ensures RStrip(s + tail, c) == RStrip(s, c)
  {
    var t := RStrip(s, c);
    forall k | |t| <= k < |s + tail|
      ensures (s + tail)[k] == c
    {
      if k >= |s| {
        assert (s + tail)[k] == tail[k - |s|];
      }
    }
    RStripUnique(s + tail, c, t);
  }

  /** Number of occurrences of `c` in `s`. */
  function Count(s: string, c: char): (n: nat)
    ensures n <= |s|
    ensures n == 0 <==> c !in s
  {
    if s == [] then 0 else (if s[0] == c then 1 else 0) + Count(s[1..], c)
  }

  lemma {:induction false} CountConcat(a: string, b: string, c: char)
    ensures Count(a + b, c) == Count(a, c) + Count(b, c)
  {
    if a == [] {
      assert a + b == b;
    } else {
      assert (a + b)[0] == a[0];
      assert (a + b)[1..] == a[1..] + b;
      CountConcat(a[1..], b, c);
    }
  }

  /** Position of the first `c` in `s`, or `|s|` when there is none. */
  function IndexOf(s: string, c: char): (k: nat)
    ensures k <= |s|
    ensures forall j :: 0 <= j < k ==> s[j] != c
    ensures k < |s| ==> s[k] == c
  {
    if s == [] || s[0] == c then 0 else 1 + IndexOf(s[1..], c)
  }

  /** Splits text into lines at each newline, as a reader of newline-delimited
      JSON does; the newline ending the last line produces no empty line, and a
      final line without a newline is kept. */
  function Lines(s: string): (ls: seq<string>)
    ensures forall k :: 0 <= k < |ls| ==> '\n' !in ls[k]
    ensures |ls| <= |s|
    decreases |s|
  {
    if s == [] then []
    else
      var k := IndexOf(s, '\n');
      if k == |s| then [s] else [s[..k]] + Lines(s[k + 1..])
  }

  /** A line without a newline, followed by a newline, is split off first. */
  lemma LinesCons(line: string, rest: string)
    requires '\n' !in line
    ensures Lines(line + "\n" + rest) == [line] + Lines(rest)
  {
    var s := line + "\n" + rest;
    var k := IndexOf(s, '\n');
    assert s[|line|] == '\n';
    assert k == |line|;
    assert s[..k] == line;
    assert s[k + 1..] == rest;
  }

  /** Two newline-free lines, each terminated by a newline: the text holds
      exactly two newlines and splits back into those two lines. */
  lemma TwoLines(first: string, second: string)
    requires '\n' !in first && '\n' !in second
    ensures Count(first + "\n" + second + "\n", '\n') == 2
    ensures Lines(first + "\n" + second + "\n") == [first, second]
  {
    var s := first + "\n" + second + "\n";
    assert Count(s, '\n') == 2 by {
      CountConcat(first + "\n" + second, "\n", '\n');
      CountConcat(first + "\n", second, '\n');
      CountConcat(first, "\n", '\n');
    }
    assert Lines(s) == [first, second] by {
      assert s == first + "\n" + (second + "\n");
      LinesCons(first, second + "\n");
      assert second + "\n" == second + "\n" + [];
      LinesCons(second, []);
    }
  }
}
