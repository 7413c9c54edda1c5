/** Options and the Python string operations the modelled code relies on. */
module Strings {

  datatype Option<+T> = None | Some(value: T)

  /** The blank line between two paragraphs. */
  const PARAGRAPH := "\n\n"

  /** The position of the first `c` in `s`, or -1: Python's `s.find(c)`. */
  function IndexOf(s: string, c: char): (r: int)
    ensures -1 <= r < |s|
    ensures r >= 0 ==> s[r] == c && forall i :: 0 <= i < r ==> s[i] != c
    ensures r < 0 ==> c !in s
  {
    if s == "" then -1
    else if s[0] == c then 0
    else
      var r := IndexOf(s[1..], c);
      if r < 0 then -1 else r + 1
  }

  /** A text that has `c` at `i` and nowhere before it. */
  lemma IndexOfIs(s: string, c: char, i: nat)
    requires i < |s| && s[i] == c
    requires forall k :: 0 <= k < i ==> s[k] != c
    ensures IndexOf(s, c) == i
  {
    var r := IndexOf(s, c);
    assert s[i] in s;
    if r < i {
      assert false;
    } else if r > i {
      assert false;
    }
  }

  /** All parts in order. */
  function Concat(parts: seq<string>): string {
    if parts == [] then "" else parts[0] + Concat(parts[1..])
  }

  lemma {:induction false} ConcatSnoc(parts: seq<string>, last: string)
    ensures Concat(parts + [last]) == Concat(parts) + last
  {
    if parts == [] {
      assert parts + [last] == [last];
      assert last + "" == last;
    } else {
      ConcatSnoc(parts[1..], last);
      assert (parts + [last])[1..] == parts[1..] + [last];
    }
  }

  /** How often `c` occurs in `s`. */
  function CountOf(s: string, c: char): nat {
    if s == "" then 0 else (if s[0] == c then 1 else 0) + CountOf(s[1..], c)
  }

  lemma {:induction false} CountOfConcat(a: string, b: string, c: char)
    ensures CountOf(a + b, c) == CountOf(a, c) + CountOf(b, c)
  {
    if a == "" {
      assert a + b == b;
    } else {
      CountOfConcat(a[1..], b, c);
      assert (a + b)[1..] == a[1..] + b;
    }
  }

  lemma {:induction false} CountOfAbsent(s: string, c: char)
    requires c !in s
    ensures CountOf(s, c) == 0
  {
    if s != "" {
      assert s[0] in s;
      forall x | x in s[1..] ensures x in s {}
      CountOfAbsent(s[1..], c);
    }
  }

  // ----- Whitespace

  /** The characters `str.strip` and `str.split` treat as whitespace. */
  predicate IsSpace(c: char) {
    || '\t' <= c <= '\r'
    || '\U{1C}' <= c <= ' '
    || c == '\U{85}' || c == '\U{A0}' || c == '\U{1680}'
    || '\U{2000}' <= c <= '\U{200A}'
    || c == '\U{2028}' || c == '\U{2029}' || c == '\U{202F}' || c == '\U{205F}' || c == '\U{3000}'
  }

  function LStrip(s: string): string {
    if s != "" && IsSpace(s[0]) then LStrip(s[1..]) else s
  }

  function RStrip(s: string): string {
    if s != "" && IsSpace(s[|s| - 1]) then RStrip(s[..|s| - 1]) else s
  }

  function Strip(s: string): string {
    RStrip(LStrip(s))
  }

  /** A text with something on both of its ends. */
  predicate Trimmed(s: string) {
    s != "" && !IsSpace(s[0]) && !IsSpace(s[|s| - 1])
  }

  lemma TrimmedIsStripped(s: string)
    requires Trimmed(s)
    ensures Strip(s) == s
  {
  }

  lemma {:induction false} RStripFacts(s: string)
    ensures RStrip(s) <= s
    ensures RStrip(s) != "" ==> !IsSpace(RStrip(s)[|RStrip(s)| - 1])
    ensures forall i :: |RStrip(s)| <= i < |s| ==> IsSpace(s[i])
  {
    if s != "" && IsSpace(s[|s| - 1]) {
      RStripFacts(s[..|s| - 1]);
    }
  }

  lemma {:induction false} LStripFacts(s: string)
    ensures |LStrip(s)| <= |s| && LStrip(s) == s[|s| - |LStrip(s)|..]
    ensures LStrip(s) != "" ==> !IsSpace(LStrip(s)[0])
    ensures forall i :: 0 <= i < |s| - |LStrip(s)| ==> IsSpace(s[i])
  {
    if s != "" && IsSpace(s[0]) {
      LStripFacts(s[1..]);
      forall i | 0 <= i < |s| - |LStrip(s)| ensures IsSpace(s[i]) {
        assert i > 0 ==> s[i] == s[1..][i - 1];
      }
    }
  }

  /** Stripping leaves nothing, or a trimmed text. */
  lemma StripFacts(s: string)
    ensures Strip(s) == "" || Trimmed(Strip(s))
    ensures Strip(Strip(s)) == Strip(s)
    ensures Strip(s) == "" <==> forall i :: 0 <= i < |s| ==> IsSpace(s[i])
  {
    LStripFacts(s);
    RStripFacts(LStrip(s));
    var l := LStrip(s);
    if Strip(s) == "" {
      assert l == "";
    } else {
      assert l[0] == s[|s| - |l|];
      TrimmedIsStripped(Strip(s));
    }
  }

  // ----- Suffixes and the last occurrence

  predicate EndsWith(s: string, suffix: string) {
    |suffix| <= |s| && s[|s| - |suffix|..] == suffix
  }

  predicate At(s: string, sep: string, i: int) {
    0 <= i <= |s| - |sep| && s[i..i + |sep|] == sep
  }

  lemma AtBreak(s: string, i: int)
    ensures At(s, "\n", i) <==> 0 <= i < |s| && s[i] == '\n'
    ensures At(s, "\n\n", i) <==> 0 <= i < |s| - 1 && s[i] == '\n' && s[i + 1] == '\n'
  {
    if 0 <= i < |s| {
      assert s[i..i + 1] == [s[i]];
      if i < |s| - 1 {
        assert s[i..i + 2] == [s[i], s[i + 1]];
      }
    }
  }

  lemma AtFront(s: string, sep: string, i: int)
    requires s != "" && i <= |s| - 1 - |sep|
    ensures At(s[..|s| - 1], sep, i) <==> At(s, sep, i)
  {
    if 0 <= i {
      assert s[..|s| - 1][i..i + |sep|] == s[i..i + |sep|];
    }
  }

  /** Python's `s.rfind(sep)`. */
  function RFind(s: string, sep: string): (r: int)
    requires sep != ""
    ensures r == -1 || At(s, sep, r)
    ensures forall i :: i > r ==> !At(s, sep, i)
  {
    if |s| < |sep| then -1
    else if EndsWith(s, sep) then |s| - |sep|
    else
      var r := RFind(s[..|s| - 1], sep);
      assert forall i :: i <= |s| - 1 - |sep| ==> (At(s[..|s| - 1], sep, i) <==> At(s, sep, i)) by {
        forall i | i <= |s| - 1 - |sep| { AtFront(s, sep, i); }
      }
      r
  }

  /** The last occurrence, given one with none behind it. */
  lemma RFindIs(s: string, sep: string, r: int)
    requires sep != "" && r >= -1 && (r == -1 || At(s, sep, r))
    requires forall i :: i > r ==> !At(s, sep, i)
    ensures RFind(s, sep) == r
  {
    var q := RFind(s, sep);
    assert q > r ==> At(s, sep, q);
  }

  /** Python's `s.rpartition(sep)`: the head, whether the separator was there, and the last part. */
  function RPartition(s: string, sep: string): (string, bool, string)
    requires sep != ""
  {
    var r := RFind(s, sep);
    if r < 0 then ("", false, s) else (s[..r], true, s[r + |sep|..])
  }

  /** Python's `sep.join(parts)`. */
  function Join(sep: string, parts: seq<string>): string {
    if parts == [] then "" else if |parts| == 1 then parts[0] else parts[0] + sep + Join(sep, parts[1..])
  }

  lemma {:induction false} JoinWithout(sep: string, parts: seq<string>, c: char)
    requires c !in sep && forall p :: p in parts ==> c !in p
    ensures c !in Join(sep, parts)
  {
    if parts != [] {
      assert parts[0] in parts;
      if |parts| > 1 {
        assert forall p :: p in parts[1..] ==> p in parts;
        JoinWithout(sep, parts[1..], c);
      }
    }
  }

  // ----- What a join reads

  /** A text that is the label and then exactly the parts in order, with the separator between each two. */
  ghost predicate LaidOut(line: string, lbl: string, sep: string, parts: seq<string>) {
    exists starts: seq<nat> :: Placed(line, lbl, sep, parts, starts)
  }

  /** Where each part starts in such a text. */
  ghost predicate Placed(line: string, lbl: string, sep: string, parts: seq<string>, starts: seq<nat>) {
    && |starts| == |parts| > 0
    && lbl <= line && starts[0] == |lbl|
    && Standing(line, parts, starts) && Spaced(line, sep, parts, starts)
    && |line| == starts[|parts| - 1] + |parts[|parts| - 1]|
  }

  ghost predicate Standing(line: string, parts: seq<string>, starts: seq<nat>)
    requires |starts| == |parts|
  {
    forall i :: 0 <= i < |parts| ==> At(line, parts[i], starts[i])
  }

  ghost predicate Spaced(line: string, sep: string, parts: seq<string>, starts: seq<nat>)
    requires |starts| == |parts|
  {
    forall i, j :: 0 <= i && j == i + 1 < |parts| ==>
      starts[j] == starts[i] + |parts[i]| + |sep| && At(line, sep, starts[i] + |parts[i]|)
  }

  lemma {:induction false} JoinIsPlaced(lbl: string, sep: string, parts: seq<string>) returns (starts: seq<nat>)
    requires parts != []
    ensures Placed(lbl + Join(sep, parts), lbl, sep, parts, starts)
    decreases |parts|
  {
    hide *;
    var head := lbl + parts[0] + sep;
    JoinCases(lbl, sep, parts);
    if |parts| == 1 {
      starts := [|lbl|];
      OnePlaced(lbl, sep, parts[0]);
      assert parts == [parts[0]];
    } else {
      var later := JoinIsPlaced(head, sep, parts[1..]);
      starts := [|lbl|] + later;
      PartInFront(lbl, sep, parts[0], parts[1..], later, head + Join(sep, parts[1..]));
      assert parts == [parts[0]] + parts[1..];
    }
  }

  lemma JoinCases(lbl: string, sep: string, parts: seq<string>)
    requires parts != []
    ensures lbl + Join(sep, parts)
         == if |parts| == 1 then lbl + parts[0] else lbl + parts[0] + sep + Join(sep, parts[1..])
  {
    if |parts| > 1 {
      var (p, rest) := (parts[0], Join(sep, parts[1..]));
      assert lbl + (p + sep + rest) == lbl + p + sep + rest;
    }
  }

  lemma OnePlaced(lbl: string, sep: string, part: string)
    ensures Placed(lbl + part, lbl, sep, [part], [|lbl|])
  {
    assert (lbl + part)[|lbl|..|lbl| + |part|] == part;
  }

  lemma HeadParts(lbl: string, sep: string, part: string, line: string)
    requires lbl + part + sep <= line
    ensures lbl <= line && At(line, part, |lbl|) && At(line, sep, |lbl| + |part|)
  {
    var head, n, m := lbl + part + sep, |lbl|, |lbl| + |part|;
    assert line[..n] == head[..n] == lbl;
    assert line[n..m] == head[n..m] == part;
    assert line[m..m + |sep|] == head[m..m + |sep|] == sep;
  }

  lemma PartInFront(lbl: string, sep: string, part: string, rest: seq<string>, starts: seq<nat>, line: string)
    requires Placed(line, lbl + part + sep, sep, rest, starts)
    ensures Placed(line, lbl, sep, [part] + rest, [|lbl|] + starts)
  {
    HeadParts(lbl, sep, part, line);
    StandingCons(line, part, |lbl|, rest, starts);
    SpacedCons(line, sep, part, |lbl|, rest, starts);
    hide At, Standing, Spaced;
  }

  lemma StandingCons(line: string, part: string, start: nat, parts: seq<string>, starts: seq<nat>)
    requires |starts| == |parts| && Standing(line, parts, starts) && At(line, part, start)
    ensures Standing(line, [part] + parts, [start] + starts)
  {
    hide At;
  }

  lemma SpacedCons(line: string, sep: string, part: string, start: nat, parts: seq<string>, starts: seq<nat>)
    requires |starts| == |parts| > 0 && Spaced(line, sep, parts, starts)
    requires starts[0] == start + |part| + |sep| && At(line, sep, start + |part|)
    ensures Spaced(line, sep, [part] + parts, [start] + starts)
  {
    hide At;
    var all := [start] + starts;
    forall i, j | 0 <= i && j == i + 1 < |all|
      ensures all[j] == all[i] + |([part] + parts)[i]| + |sep| && At(line, sep, all[i] + |([part] + parts)[i]|)
    {
      if i > 0 {
        assert starts[i] == starts[i - 1] + |parts[i - 1]| + |sep|;
      }
    }
  }
}
