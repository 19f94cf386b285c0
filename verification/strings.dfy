/** Text helpers shared by the adjudicator prompts and the client's handle strings:
    prefix tests, `join` with a separator, and `split` at a single character. */
module Strings {

  /** `s.starts_with(prefix)` in Rust, `s.startsWith(prefix)` in JavaScript. */
  predicate StartsWith(s: string, prefix: string) {
    |prefix| <= |s| && s[..|prefix|] == prefix
  }

  /** Rust's `[&str]::join(sep)`: the parts with `sep` between consecutive parts;
      the empty list joins to the empty string. */
  function Join(parts: seq<string>, sep: string): string {
    if |parts| == 0 then ""
    else if |parts| == 1 then parts[0]
    else parts[0] + sep + Join(parts[1..], sep)
  }

  /** Joining two non-empty lists is joining each and putting one separator between. */
  lemma {:induction false} JoinAppend(a: seq<string>, b: seq<string>, sep: string)
    requires |a| >= 1 && |b| >= 1
    ensures Join(a + b, sep) == Join(a, sep) + sep + Join(b, sep)
    decreases |a|
  {
    assert (a + b)[0] == a[0];
    if |a| == 1 {
      assert (a + b)[1..] == b;
    } else {
      JoinAppend(a[1..], b, sep);
      assert (a + b)[1..] == a[1..] + b;
    }
  }

  /** JavaScript's `s.split(c)` for a one-character separator: the maximal pieces between
      occurrences of `c`, in order. There is always at least one piece. */
  function Split(s: string, c: char): (r: seq<string>)
    ensures |r| >= 1
    ensures c !in s ==> r == [s]
    ensures forall i :: 0 <= i < |r| ==> c !in r[i]
  {
    if s == [] then [""]
    else
      var rest := Split(s[1..], c);
      assert c !in s ==> rest == [s[1..]];
      assert s == [s[0]] + s[1..];
      PushPiece(s[0], c, rest)
  }

  /** Splitting at a separator occurrence splits both sides independently. */
  lemma {:induction false} SplitAt(a: string, b: string, c: char)
    ensures Split(a + [c] + b, c) == Split(a, c) + Split(b, c)
    decreases |a|
  {
    if a == [] {
      assert a + [c] + b == [c] + b;
      SplitCons(c, b, c);
      assert Split(a, c) == [""];
    } else {
      SplitAt(a[1..], b, c);
      assert a + [c] + b == [a[0]] + (a[1..] + [c] + b);
      assert a == [a[0]] + a[1..];
      SplitAtStep(a[0], a[1..], b, c);
    }
  }

  /** The inductive step of `SplitAt`: one more character in front of the left side. */
  lemma SplitAtStep(x: char, a: string, b: string, c: char)
    requires Split(a + [c] + b, c) == Split(a, c) + Split(b, c)
    ensures Split([x] + (a + [c] + b), c) == Split([x] + a, c) + Split(b, c)
  {
    SplitCons(x, a + [c] + b, c);
    SplitCons(x, a, c);
    PushFront(x, c, Split(a, c), Split(b, c));
  }

  /** How a leading character joins the pieces of the rest: a separator opens an empty
      first piece, any other character extends the first piece. */
  function PushPiece(x: char, c: char, rest: seq<string>): seq<string>
    requires |rest| >= 1
  {
    if x == c then [""] + rest else [[x] + rest[0]] + rest[1..]
  }

  /** A leading character only touches the left part of a concatenation of pieces. */
  lemma PushFront(x: char, c: char, l: seq<string>, r: seq<string>)
    requires |l| >= 1
    ensures PushPiece(x, c, l + r) == PushPiece(x, c, l) + r
  {
    if x != c {
      assert (l + r)[0] == l[0];
      assert (l + r)[1..] == l[1..] + r;
    }
  }

  /** Splitting a string by its first character. */
  lemma SplitCons(x: char, s: string, c: char)
    ensures Split([x] + s, c) == PushPiece(x, c, Split(s, c))
  {
    assert ([x] + s)[0] == x && ([x] + s)[1..] == s;
  }

  /** Joining pieces that do not contain `c` with the separator `c` and splitting again
      gives the pieces back. */
  lemma {:induction false} SplitJoin(parts: seq<string>, c: char)
    requires |parts| >= 1
    requires forall i :: 0 <= i < |parts| ==> c !in parts[i]
    ensures Split(Join(parts, [c]), c) == parts
    decreases |parts|
  {
    if |parts| == 1 {
    } else {
      SplitJoin(parts[1..], c);
      SplitAt(parts[0], Join(parts[1..], [c]), c);
      assert parts == [parts[0]] + parts[1..];
    }
  }

  /** Prefixing each part with `bullet` and joining with `nl` is the same as joining with
      `nl + bullet` and prefixing the whole once. */
  lemma {:induction false} JoinBulleted(parts: seq<string>, nl: string, bullet: string)
    requires |parts| >= 1
    ensures bullet + Join(parts, nl + bullet) == Join(Bulleted(parts, bullet), nl)
    decreases |parts|
  {
    if |parts| == 1 {
    } else {
      JoinBulleted(parts[1..], nl, bullet);
      assert Bulleted(parts, bullet)[1..] == Bulleted(parts[1..], bullet);
      calc {
        bullet + Join(parts, nl + bullet);
        bullet + (parts[0] + (nl + bullet) + Join(parts[1..], nl + bullet));
        (bullet + parts[0]) + nl + (bullet + Join(parts[1..], nl + bullet));
        (bullet + parts[0]) + nl + Join(Bulleted(parts[1..], bullet), nl);
      }
    }
  }

  /** A header line, the bulleted parts, a second header line and a bulleted last line,
      joined by `nl`, is the text with `nl + bullet` before each bulleted item. */
  lemma JoinFramed(pre: string, parts: seq<string>, mid: string, last: string, nl: string, bullet: string)
    requires |parts| >= 1
    ensures Join([pre] + Bulleted(parts, bullet) + [mid, bullet + last], nl)
      == pre + (nl + bullet) + Join(parts, nl + bullet) + nl + mid + (nl + bullet) + last
  {
    var bs := Bulleted(parts, bullet);
    var tail := [mid, bullet + last];
    var j := Join(parts, nl + bullet);
    assert tail[1..] == [bullet + last];
    calc {
      Join([pre] + bs + tail, nl);
      { JoinAppend([pre] + bs, tail, nl); }
      Join([pre] + bs, nl) + nl + Join(tail, nl);
      { JoinAppend([pre], bs, nl); }
      pre + nl + Join(bs, nl) + nl + Join(tail, nl);
      { JoinBulleted(parts, nl, bullet); }
      pre + nl + (bullet + j) + nl + (mid + nl + (bullet + last));
    }
    SixParts(pre, nl, bullet, j, mid, last);
  }

  /** Regrouping of a concatenation of the framed text. */
  lemma SixParts(pre: string, nl: string, bullet: string, j: string, mid: string, last: string)
    ensures pre + nl + (bullet + j) + nl + (mid + nl + (bullet + last))
      == pre + (nl + bullet) + j + nl + mid + (nl + bullet) + last
  {
  }

  /** Each part prefixed with `bullet`. */
  function Bulleted(parts: seq<string>, bullet: string): (r: seq<string>)
    ensures |r| == |parts|
    ensures forall i :: 0 <= i < |parts| ==> r[i] == bullet + parts[i]
  {
    seq(|parts|, i requires 0 <= i < |parts| => bullet + parts[i])
  }
}
