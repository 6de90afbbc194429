/** Text files as the service sees them through `open(..., encoding="utf-8")`:
    a file is its text, a file written piece by piece holds the pieces one
    after the other, and a file read in text mode goes through universal
    newline translation before `readlines` cuts it into lines. The line
    separator written is "\n" (a POSIX system). */
module TextFiles {

  /** The text of a file made of `parts` written one after the other */
  function Concat(parts: seq<string>): (r: string)
    ensures parts != [] ==> parts[0] <= r
  {
    if parts == [] then "" else parts[0] + Concat(parts[1..])
  }

  lemma {:induction false} ConcatAppend(parts: seq<string>, p: string)
    ensures Concat(parts + [p]) == Concat(parts) + p
  {
    if parts == [] {
      assert parts + [p] == [p];
    } else {
      assert (parts + [p])[1..] == parts[1..] + [p];
      ConcatAppend(parts[1..], p);
    }
  }

  /** Universal newlines on reading: "\r\n" and a lone "\r" both read as "\n" */
  function Translate(t: string): (r: string)
    ensures '\r' !in r
    decreases |t|
  {
    if t == [] then []
    else if t[0] == '\r' then
      if |t| > 1 && t[1] == '\n' then "\n" + Translate(t[2..]) else "\n" + Translate(t[1..])
    else [t[0]] + Translate(t[1..])
  }

  /** Text without a carriage return reads as it was written */
  lemma {:induction false} TranslatePrefix(a: string, b: string)
    requires '\r' !in a
    ensures Translate(a + b) == a + Translate(b)
    decreases |a|
  {
    if a != [] {
      assert (a + b)[0] == a[0] && (a + b)[1..] == a[1..] + b;
      TranslatePrefix(a[1..], b);
      assert [a[0]] + a[1..] == a;
    } else {
      assert a + b == b;
    }
  }

  /** The first line of a non-empty text, newline included when there is one,
      and the text after it */
  function SplitLine(t: string): (r: (string, string))
    requires t != []
    ensures r.0 != [] && r.0 + r.1 == t
    ensures forall j :: 0 <= j < |r.0| - 1 ==> r.0[j] != '\n'
    ensures r.1 != [] ==> r.0[|r.0| - 1] == '\n'
    decreases |t|
  {
    if t[0] == '\n' || |t| == 1 then ([t[0]], t[1..])
    else
      var (l, rest) := SplitLine(t[1..]);
      assert [t[0]] + l + rest == t;
      ([t[0]] + l, rest)
  }

  lemma {:induction false} SplitLineAt(l: string, rest: string)
    requires '\n' !in l
    ensures SplitLine(l + "\n" + rest) == (l + "\n", rest)
    decreases |l|
  {
    var t := l + "\n" + rest;
    if l != [] {
      assert t[0] == l[0] && t[1..] == l[1..] + "\n" + rest;
      SplitLineAt(l[1..], rest);
      assert [l[0]] + (l[1..] + "\n") == l + "\n";
    } else {
      assert t == "\n" + rest;
    }
  }

  /** f.readlines() of the (translated) text t: every line but the last ends
      with its newline, no line holds another newline, and together they are t */
  function Lines(t: string): (ls: seq<string>)
    ensures Concat(ls) == t
    ensures forall i :: 0 <= i < |ls| ==> ls[i] != []
    ensures forall i :: 0 <= i < |ls| - 1 ==> ls[i][|ls[i]| - 1] == '\n'
    ensures forall i, j :: 0 <= i < |ls| && 0 <= j < |ls[i]| - 1 ==> ls[i][j] != '\n'
    decreases |t|
  {
    if t == [] then []
    else
      var (l, rest) := SplitLine(t);
      var ls := [l] + Lines(rest);
      assert ls[1..] == Lines(rest);
      ls
  }

  /** Text made of newline-terminated lines without other newlines reads
      back as those lines */
  lemma LinesCons(l: string, rest: string)
    requires '\n' !in l
    ensures Lines(l + "\n" + rest) == [l + "\n"] + Lines(rest)
  {
    SplitLineAt(l, rest);
  }
}
