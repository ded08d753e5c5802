/** Strings as the Python sources use them: whitespace, strip, newline-terminated lines. */
module Text {

  /** The characters that `str.strip` and `str.isspace` treat as whitespace. */
  predicate IsSpace(c: char) {
    || '\t' <= c <= '\r'
    || '\U{1c}' <= c <= ' '
    || c in {'\U{85}', '\U{a0}', '\U{1680}', '\U{2028}', '\U{2029}', '\U{202f}', '\U{205f}', '\U{3000}'}
    || '\U{2000}' <= c <= '\U{200a}'
  }

  function TrimLeft(s: string): string {
    if s != "" && IsSpace(s[0]) then TrimLeft(s[1..]) else s
  }

  function TrimRight(s: string): string {
    if s != "" && IsSpace(s[|s| - 1]) then TrimRight(s[..|s| - 1]) else s
  }

  /** `s.strip()` */
  function Strip(s: string): string {
    TrimRight(TrimLeft(s))
  }

  /** No surrounding whitespace. */
  predicate Trimmed(s: string) {
    s != "" ==> !IsSpace(s[0]) && !IsSpace(s[|s| - 1])
  }

  predicate Blank(s: string) {
    forall c <- s :: IsSpace(c)
  }

  lemma StripTrimmed(s: string)
    requires Trimmed(s)
    ensures Strip(s) == s
  {
  }

  lemma {:induction false} TrimLeftShape(s: string)
    ensures |TrimLeft(s)| <= |s| && TrimLeft(s) == s[|s| - |TrimLeft(s)|..]
    ensures Blank(s[..|s| - |TrimLeft(s)|])
    ensures TrimLeft(s) != "" ==> !IsSpace(TrimLeft(s)[0])
  {
    if s != "" && IsSpace(s[0]) {
      TrimLeftShape(s[1..]);
      var k := |s| - |TrimLeft(s)|;
      assert s[..k] == [s[0]] + s[1..][..k - 1];
    }
  }

  lemma {:induction false} TrimRightShape(s: string)
    ensures TrimRight(s) <= s
    ensures Blank(s[|TrimRight(s)|..])
    ensures TrimRight(s) != "" ==> !IsSpace(TrimRight(s)[|TrimRight(s)| - 1])
  {
    if s != "" && IsSpace(s[|s| - 1]) {
      TrimRightShape(s[..|s| - 1]);
      var k := |TrimRight(s)|;
      assert s[k..] == s[..|s| - 1][k..] + [s[|s| - 1]];
    }
  }

  /** `not s.strip()` says exactly that every character is whitespace. */
  lemma StripEmpty(s: string)
    ensures Strip(s) == "" <==> Blank(s)
  {
    TrimLeftShape(s);
    var t := TrimLeft(s);
    TrimRightShape(t);
    assert s == s[..|s| - |t|] + t;
    assert t != "" ==> t[0] in s;
    assert Strip(s) == "" ==> t[0..] == t;
  }

  lemma {:induction false} TrimLeftSkips(left: string, s: string)
    requires Blank(left) && s != "" && !IsSpace(s[0])
    ensures TrimLeft(left + s) == s
  {
    if left == "" {
      assert left + s == s;
    } else {
      assert (left + s)[1..] == left[1..] + s;
      TrimLeftSkips(left[1..], s);
    }
  }

  lemma {:induction false} TrimRightSkips(s: string, right: string)
    requires Blank(right) && s != "" && !IsSpace(s[|s| - 1])
    ensures TrimRight(s + right) == s
  {
    if right == "" {
      assert s + right == s;
    } else {
      assert (s + right)[..|s + right| - 1] == s + right[..|right| - 1];
      TrimRightSkips(s, right[..|right| - 1]);
    }
  }

  /** Blanks, tabs and line breaks around a text that begins and ends with printable characters are what is stripped. */
  lemma StripAround(left: string, s: string, right: string)
    requires forall c <- left + right :: c == ' ' || c == '\t' || c == '\n' || c == '\r'
    requires s != "" && '!' <= s[0] <= '~' && '!' <= s[|s| - 1] <= '~'
    ensures Strip(left + s + right) == s
  {
    forall c | c in left ensures IsSpace(c) {
      assert c in left + right;
    }
    forall c | c in right ensures IsSpace(c) {
      assert c in left + right;
    }
    assert left + s + right == left + (s + right);
    TrimLeftSkips(left, s + right);
    TrimRightSkips(s, right);
  }

  lemma {:induction false} TrimLeftAppend(s: string, c: char)
    requires IsSpace(c)
    ensures TrimLeft(s + [c]) == if Blank(s) then "" else TrimLeft(s) + [c]
  {
    if s == "" {
      assert TrimLeft([c]) == TrimLeft([c][1..]);
    } else {
      assert (s + [c])[1..] == s[1..] + [c];
      if IsSpace(s[0]) {
        TrimLeftAppend(s[1..], c);
        assert s == [s[0]] + s[1..];
        assert Blank(s) <==> Blank(s[1..]);
      }
    }
  }

  /** A carriage return before the newline is stripped with the line. */
  lemma StripAppend(s: string, c: char)
    requires IsSpace(c)
    ensures Strip(s + [c]) == Strip(s)
  {
    TrimLeftAppend(s, c);
    StripEmpty(s);
    var t := TrimLeft(s);
    assert (t + [c])[..|t|] == t;
  }

  /** Position of the first occurrence of `c`, or the length when there is none. */
  function Find(s: string, c: char): (k: nat)
    ensures k <= |s| && c !in s[..k]
    ensures k < |s| ==> s[k] == c
  {
    if s == "" || s[0] == c then 0
    else
      assert s[..1 + Find(s[1..], c)] == [s[0]] + s[1..][..Find(s[1..], c)];
      1 + Find(s[1..], c)
  }

  lemma FindPresent(s: string, c: char)
    ensures c in s <==> Find(s, c) < |s|
  {
    assert s[..|s|] == s;
  }

  /** The newline-terminated lines of a text, without their newlines. */
  function Lines(text: string): seq<string> {
    var k := Find(text, '\n');
    if k == |text| then [] else [text[..k]] + Lines(text[k + 1..])
  }

  /** What follows the last newline. */
  function Tail(text: string): string {
    var k := Find(text, '\n');
    if k == |text| then text else Tail(text[k + 1..])
  }

  function Unlines(lines: seq<string>): string {
    if lines == [] then "" else lines[0] + "\n" + Unlines(lines[1..])
  }

  predicate NewlineFree(lines: seq<string>) {
    forall line <- lines :: '\n' !in line
  }

  /** `lines` and `tail` cut `text` at every newline and nowhere else. */
  predicate Cuts(text: string, lines: seq<string>, tail: string) {
    text == Unlines(lines) + tail && NewlineFree(lines) && '\n' !in tail
  }

  lemma {:induction false} FindIs(s: string, k: nat, c: char)
    requires k < |s| && c !in s[..k] && s[k] == c
    ensures Find(s, c) == k
  {
    if 0 < k {
      assert s[..k][0] == s[0] && s[1..][..k - 1] == s[..k][1..];
      FindIs(s[1..], k - 1, c);
    }
  }

  lemma {:induction false} LinesJoin(text: string)
    ensures text == Unlines(Lines(text)) + Tail(text)
  {
    var k := Find(text, '\n');
    if k < |text| {
      LinesJoin(text[k + 1..]);
      UnlinesCons(text[..k], Lines(text[k + 1..]));
      SplitAt(text, k);
      LinesAssociate(text, text[..k] + "\n", text[k + 1..], Unlines(Lines(text[k + 1..])), Tail(text[k + 1..]));
    }
  }

  lemma SplitAt(text: string, k: nat)
    requires k < |text| && text[k] == '\n'
    ensures text == text[..k] + "\n" + text[k + 1..]
  {
  }

  lemma UnlinesCons(line: string, lines: seq<string>)
    ensures Unlines([line] + lines) == line + "\n" + Unlines(lines)
  {
    assert ([line] + lines)[1..] == lines;
  }

  lemma LinesAssociate(text: string, head: string, rest: string, lines: string, tail: string)
    requires text == head + rest && rest == lines + tail
    ensures text == head + lines + tail
  {
  }

  lemma {:induction false} LinesNewlineFree(text: string)
    ensures NewlineFree(Lines(text)) && '\n' !in Tail(text)
  {
    var k := Find(text, '\n');
    if k < |text| {
      LinesNewlineFree(text[k + 1..]);
    } else {
      FindPresent(text, '\n');
    }
  }

  lemma LinesCut(text: string)
    ensures Cuts(text, Lines(text), Tail(text))
  {
    LinesJoin(text);
    LinesNewlineFree(text);
  }

  /** There is only one way to cut a text into lines. */
  lemma {:induction false} CutUnique(text: string, lines: seq<string>, tail: string)
    requires Cuts(text, lines, tail)
    ensures lines == Lines(text) && tail == Tail(text)
  {
    if lines == [] {
      assert text == tail;
      FindPresent(text, '\n');
    } else {
      var k := |lines[0]|;
      var rest := Unlines(lines[1..]) + tail;
      assert text == lines[0] + ("\n" + rest);
      assert text[..k] == lines[0];
      FindIs(text, k, '\n');
      assert text[k + 1..] == rest;
      assert NewlineFree(lines[1..]) by {
        forall line | line in lines[1..] ensures '\n' !in line {
          assert line in lines;
        }
      }
      CutUnique(rest, lines[1..], tail);
    }
  }

  lemma {:induction false} UnlinesConcat(a: seq<string>, b: seq<string>)
    ensures Unlines(a + b) == Unlines(a) + Unlines(b)
  {
    if a == [] {
      assert a + b == b;
    } else {
      assert (a + b)[1..] == a[1..] + b;
      UnlinesConcat(a[1..], b);
    }
  }

  lemma JoinPieces(a: string, b: string, lines: string, tail: string)
    requires a == lines + tail
    ensures a + b == lines + (tail + b)
  {
  }

  /** Cutting a text in two pieces: the second piece is read after the unterminated end of the first. */
  lemma LinesConcat(a: string, b: string)
    ensures Lines(a + b) == Lines(a) + Lines(Tail(a) + b)
    ensures Tail(a + b) == Tail(Tail(a) + b)
  {
    var c := Tail(a) + b;
    LinesCut(a);
    LinesCut(c);
    UnlinesConcat(Lines(a), Lines(c));
    JoinPieces(a, b, Unlines(Lines(a)), Tail(a));
    LinesAssociate(a + b, Unlines(Lines(a)), c, Unlines(Lines(c)), Tail(c));
    CutUnique(a + b, Lines(a) + Lines(c), Tail(c));
  }

  function Flatten(chunks: seq<string>): string {
    if chunks == [] then "" else chunks[0] + Flatten(chunks[1..])
  }

  lemma {:induction false} FlattenConcat(a: seq<string>, b: seq<string>)
    ensures Flatten(a + b) == Flatten(a) + Flatten(b)
  {
    if a == [] {
      assert a + b == b;
    } else {
      assert (a + b)[1..] == a[1..] + b;
      FlattenConcat(a[1..], b);
    }
  }

  lemma FlattenTake(chunks: seq<string>, i: nat)
    requires i < |chunks|
    ensures Flatten(chunks[..i + 1]) == Flatten(chunks[..i]) + chunks[i]
  {
    assert chunks[..i + 1] == chunks[..i] + [chunks[i]];
    FlattenConcat(chunks[..i], [chunks[i]]);
    assert Flatten([chunks[i]]) == chunks[i] + Flatten([]);
  }

  lemma FlattenSplit(chunks: seq<string>, i: nat)
    requires i <= |chunks|
    ensures Flatten(chunks) == Flatten(chunks[..i]) + Flatten(chunks[i..])
  {
    assert chunks == chunks[..i] + chunks[i..];
    FlattenConcat(chunks[..i], chunks[i..]);
  }
}
