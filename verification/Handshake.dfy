/**
 The loop of `handle_client` that takes the key out of the client's opening request.  The
 functions take the header name with its colon as a parameter; the program's is `NAME`.
 */
module Handshake {

  const NAME: string := "Sec-WebSocket-Key:"

  predicate Contains(s: string, pattern: string) {
    pattern <= s || (s != "" && Contains(s[1..], pattern))
  }

  /** The place of the first occurrence, or the length when there is none. */
  function IndexOf(s: string, c: char): (i: nat)
    ensures i <= |s|
    ensures i < |s| ==> s[i] == c
    ensures c !in s[..i]
    ensures i == |s| ==> c !in s
  {
    if s == "" || s[0] == c then 0 else 1 + IndexOf(s[1..], c)
  }

  /** The key so far, or the exception `substr` throws for a position behind the end. */
  datatype Outcome = Key(key: string) | OutOfRange

  /** What a line with the header name gives. */
  function KeyOf(line: string): Outcome {
    var from := IndexOf(line, ':') + 2;
    if from > |line| then OutOfRange
    else
      var value := line[from..];
      if value == "" then Key("") else Key(value[..|value| - 1])
  }

  /** The line `getline` returns for a stream that is not at its end, and what follows it. */
  function Line(s: string): string {
    s[..IndexOf(s, '\n')]
  }

  function Rest(s: string): (r: string)
    ensures s != "" ==> |r| < |s|
  {
    var i := IndexOf(s, '\n');
    if i < |s| then s[i + 1..] else ""
  }

  /** The loop, from a state of the stream and the key so far. */
  function Scan(s: string, name: string, key: string): Outcome
    decreases |s|
  {
    if s == "" || Line(s) == "\r" then Key(key)
    else if !Contains(Line(s), name) then Scan(Rest(s), name, key)
    else
      match KeyOf(Line(s))
      case OutOfRange => OutOfRange
      case Key(k) => Scan(Rest(s), name, k)
  }

  method ExtractKey(request: string) returns (r: Outcome)
    ensures r == Scan(request, NAME, "")
  {
    var stream, key := request, "";
    while stream != ""
      invariant Scan(stream, NAME, key) == Scan(request, NAME, "")
      decreases |stream|
    {
      var line := Line(stream);
      if line == "\r" {
        break;
      }
      if Contains(line, NAME) {
        var colon := IndexOf(line, ':');
        if colon + 2 > |line| {
          return OutOfRange;
        }
        var value := line[colon + 2..];
        key := if |value| == 0 then value else value[..|value| - 1];
      }
      stream := Rest(stream);
    }
    return Key(key);
  }

  // ---------------------------------------------------------------------------
  // Lines ended by carriage return and line feed
  // ---------------------------------------------------------------------------

  /** A word and a colon. */
  predicate IsName(name: string) {
    && name != "" && name[|name| - 1] == ':'
    && ':' !in name[..|name| - 1] && '\r' !in name && '\n' !in name
  }

  lemma NameIsName()
    ensures IsName(NAME)
  {
    assert |NAME| == 18;
  }

  /** A header line without its end. */
  predicate IsLine(line: string) {
    line != "" && '\n' !in line
  }

  function Text(lines: seq<string>): string {
    if lines == [] then "" else lines[0] + "\r\n" + Text(lines[1..])
  }

  /** What follows the first colon and the character behind it. */
  function Value(line: string): string {
    var from := IndexOf(line, ':') + 2;
    if from <= |line| then line[from..] else ""
  }

  /** The value of the last line with the header name, if there is one. */
  function LastValue(lines: seq<string>, name: string, key: string): string {
    if lines == [] then key
    else LastValue(lines[1..], name, if Contains(lines[0], name) then Value(lines[0]) else key)
  }

  lemma {:induction false} FirstIndex(a: string, c: char, b: string, s: string)
    requires c !in a && s == a + [c] + b
    ensures IndexOf(s, c) == |a|
  {
    if a != [] {
      assert s[0] == a[0];
      assert s[1..] == a[1..] + [c] + b;
      FirstIndex(a[1..], c, b, s[1..]);
    }
  }

  lemma FirstLine(line: string, s: string)
    requires '\n' !in line
    ensures Line(line + "\r\n" + s) == line + "\r" && Rest(line + "\r\n" + s) == s
  {
    FirstIndex(line + "\r", '\n', s, line + "\r\n" + s);
  }

  lemma {:induction false} ContainsMore(s: string, name: string)
    requires '\r' !in name
    ensures Contains(s + "\r", name) == Contains(s, name)
  {
    PrefixMore(s, name);
    if s == "" {
      assert (s + "\r")[1..] == "";
    } else {
      assert (s + "\r")[1..] == s[1..] + "\r";
      ContainsMore(s[1..], name);
    }
  }

  lemma EndsWithReturn(s: string, name: string)
    ensures |s| < |name| && name <= s + "\r" ==> '\r' in name
  {
    if |s| < |name| && name <= s + "\r" {
      assert name[|s|] == (s + "\r")[|s|];
    }
  }

  lemma PrefixMore(s: string, name: string)
    requires '\r' !in name
    ensures name <= s + "\r" <==> name <= s
  {
    EndsWithReturn(s, name);
    assert (s + "\r")[..|s|] == s;
  }

  lemma {:induction false} ContainsChar(s: string, pattern: string, c: char)
    requires Contains(s, pattern) && c in pattern
    ensures c in s
  {
    if !(pattern <= s) {
      ContainsChar(s[1..], pattern, c);
    }
  }

  lemma {:induction false} IndexBeforeReturn(line: string)
    requires ':' in line
    ensures IndexOf(line + "\r", ':') == IndexOf(line, ':') < |line|
  {
    if line[0] != ':' {
      assert line == [line[0]] + line[1..];
      assert (line + "\r")[1..] == line[1..] + "\r";
      IndexBeforeReturn(line[1..]);
    }
  }

  lemma ColonIn(line: string, name: string)
    requires IsName(name) && Contains(line, name)
    ensures ':' in line
  {
    ContainsChar(line, name, name[|name| - 1]);
  }

  lemma DropMore(line: string, from: nat)
    requires from <= |line|
    ensures (line + "\r")[from..] == line[from..] + "\r"
    ensures (line[from..] + "\r")[..|line| - from] == line[from..]
  {
  }

  /** A line with the header name and a carriage return never throws. */
  lemma KeyOfLine(line: string, name: string)
    requires IsName(name) && Contains(line, name)
    ensures KeyOf(line + "\r") == Key(Value(line))
  {
    ColonIn(line, name);
    IndexBeforeReturn(line);
    var from := IndexOf(line, ':') + 2;
    if from <= |line| {
      DropMore(line, from);
    } else {
      assert (line + "\r")[from..] == "";
    }
  }

  /**
   For every request of lines ended by carriage return and line feed, up to the blank line,
   the loop returns the value of the last line with the header name, and never throws.
   */
  lemma {:induction false} ScanIsLastValue(lines: seq<string>, rest: string, name: string, key: string)
    requires IsName(name) && forall line <- lines :: IsLine(line)
    ensures Scan(Text(lines) + "\r\n" + rest, name, key) == Key(LastValue(lines, name, key))
    decreases |lines|
  {
    if lines == [] {
      FirstLine("", rest);
      assert Text(lines) + "\r\n" + rest == "" + "\r\n" + rest;
    } else {
      var line, more := lines[0], Text(lines[1..]) + "\r\n" + rest;
      assert Text(lines) + "\r\n" + rest == line + "\r\n" + more;
      ScanIsLastValue(lines[1..], rest, name, if Contains(line, name) then Value(line) else key);
      ScanLine(line, more, name, key);
    }
  }

  lemma ScanLine(line: string, more: string, name: string, key: string)
    requires IsName(name) && IsLine(line)
    ensures Scan(line + "\r\n" + more, name, key)
         == Scan(more, name, if Contains(line, name) then Value(line) else key)
  {
    FirstLine(line, more);
    ContainsMore(line, name);
    if Contains(line, name) {
      KeyOfLine(line, name);
    }
  }

  // ---------------------------------------------------------------------------
  // The header line
  // ---------------------------------------------------------------------------

  lemma {:induction false} LastValueSkips(lines: seq<string>, name: string, key: string)
    requires forall line <- lines :: !Contains(line, name)
    ensures LastValue(lines, name, key) == key
  {
    if lines != [] {
      LastValueSkips(lines[1..], name, key);
    }
  }

  lemma {:induction false} LastValueAppend(a: seq<string>, b: seq<string>, name: string, key: string)
    ensures LastValue(a + b, name, key) == LastValue(b, name, LastValue(a, name, key))
  {
    if a == [] {
      assert a + b == b;
    } else {
      assert (a + b)[1..] == a[1..] + b;
      LastValueAppend(a[1..], b, name, if Contains(a[0], name) then Value(a[0]) else key);
    }
  }

  lemma DropPast(name: string, tail: string)
    requires tail != ""
    ensures (name + tail)[|name| + 1..] == tail[1..]
  {
  }

  lemma ColonOfHeader(name: string, tail: string)
    requires IsName(name)
    ensures IndexOf(name + tail, ':') == |name| - 1
  {
    var word := name[..|name| - 1];
    assert name == word + [':'];
    FirstIndex(word, ':', tail, name + tail);
  }

  lemma ValueOfHeader(name: string, tail: string)
    requires IsName(name)
    ensures Contains(name + tail, name)
    ensures Value(name + tail) == if tail == "" then "" else tail[1..]
  {
    ColonOfHeader(name, tail);
    assert name <= name + tail;
    if tail != "" {
      DropPast(name, tail);
    }
  }

  /** The lines around the one with the header name. */
  ghost predicate Others(lines: seq<string>, name: string) {
    forall line <- lines :: IsLine(line) && !Contains(line, name)
  }

  ghost predicate AreLines(lines: seq<string>) {
    forall line <- lines :: IsLine(line)
  }

  /** When the last line that contains the header name begins with it, the rest of that line decides. */
  lemma HeaderGives(before: seq<string>, name: string, tail: string, after: seq<string>, rest: string)
    requires IsName(name) && AreLines(before) && Others(after, name)
    requires '\n' !in tail
    ensures Scan(Text(before + [name + tail] + after) + "\r\n" + rest, name, "")
         == Key(if tail == "" then "" else tail[1..])
  {
    var header := name + tail;
    ValueOfHeader(name, tail);
    ScanIsLastValue(before + [header] + after, rest, name, "");
    LastValueAppend(before + [header], after, name, "");
    LastValueAppend(before, [header], name, "");
    var earlier := LastValue(before, name, "");
    assert LastValue([header], name, earlier) == LastValue([header][1..], name, Value(header));
    LastValueSkips(after, name, Value(header));
  }

  /**
   When the last line that contains the header name is the name, a space and `k`, the key is
   `k`, whatever the other lines are and wherever the line stands.
   */
  lemma KeyIsReturned(before: seq<string>, k: string, after: seq<string>, rest: string)
    requires AreLines(before) && Others(after, "Sec-WebSocket-Key:") && '\n' !in k
    ensures Scan(Text(before + ["Sec-WebSocket-Key:" + (" " + k)] + after) + "\r\n" + rest, NAME, "") == Key(k)
  {
    NameIsName();
    HeaderGives(before, NAME, " " + k, after, rest);
    assert (" " + k)[1..] == k;
  }

  predicate IsBlank(c: char) {
    c == ' ' || c == '\t'
  }

  /** A value as HTTP means it: without a blank at either end. */
  predicate IsTrimmed(k: string) {
    k != "" ==> !IsBlank(k[0]) && !IsBlank(k[|k| - 1])
  }

  lemma DropOne(blanks: string, k: string, trail: string)
    requires IsTrimmed(k) && blanks + k + trail != ""
    requires (forall c <- blanks :: IsBlank(c)) && (forall c <- trail :: IsBlank(c))
    ensures (blanks + k + trail)[1..] == k <==> (|blanks| == 1 && trail == "") || (k == "" && |blanks| + |trail| == 1)
  {
    var all := blanks + k + trail;
    if |blanks| + |trail| == 1 {
      if |blanks| == 1 {
        assert all[1..] == k;
      } else if k != "" {
        assert all == k + trail && trail[0] in trail;
        assert all[1..][|k| - 1] == trail[0];
      } else {
        assert all == trail;
      }
    }
  }

  /**
   HTTP allows any blanks around a header's value.  The key is the value exactly when there
   is one blank character before it and none behind it, or when there is no value and at
   most one blank.
   */
  lemma KeyIffOneBlank(before: seq<string>, blanks: string, k: string, trail: string, after: seq<string>, rest: string)
    requires AreLines(before) && Others(after, NAME) && '\n' !in k && IsTrimmed(k)
    requires (forall c <- blanks :: IsBlank(c)) && (forall c <- trail :: IsBlank(c))
    ensures Scan(Text(before + [NAME + (blanks + k + trail)] + after) + "\r\n" + rest, NAME, "") == Key(k) <==>
            (|blanks| == 1 && trail == "") || (k == "" && |blanks| + |trail| <= 1)
  {
    NameIsName();
    NoLineFeed(blanks, k, trail);
    HeaderGives(before, NAME, blanks + k + trail, after, rest);
    if blanks + k + trail != "" {
      DropOne(blanks, k, trail);
    }
  }

  lemma NoLineFeed(blanks: string, k: string, trail: string)
    requires '\n' !in k
    requires (forall c <- blanks :: IsBlank(c)) && (forall c <- trail :: IsBlank(c))
    ensures '\n' !in blanks + k + trail
  {
  }

  // ---------------------------------------------------------------------------
  // Lines without a carriage return
  // ---------------------------------------------------------------------------

  /** The lines the loop reads: up to the end of the stream or the blank line. */
  function LinesOf(s: string): seq<string>
    decreases |s|
  {
    if s == "" || Line(s) == "\r" then [] else [Line(s)] + LinesOf(Rest(s))
  }

  /** A line with the header name throws exactly when its first colon is its last character. */
  lemma ThrowsIff(line: string, name: string)
    requires IsName(name) && Contains(line, name)
    ensures KeyOf(line) == OutOfRange <==> IndexOf(line, ':') == |line| - 1
  {
    ColonIn(line, name);
  }

  /**
   For every request whatever: the loop throws exactly when one of the lines it reads has
   the header name, and its first colon as its last character.
   */
  lemma {:induction false} ScanThrowsIff(s: string, name: string, key: string)
    requires IsName(name)
    ensures Scan(s, name, key) == OutOfRange <==>
            exists line <- LinesOf(s) :: Contains(line, name) && IndexOf(line, ':') == |line| - 1
    decreases |s|
  {
    if s != "" && Line(s) != "\r" {
      var line := Line(s);
      assert LinesOf(s)[0] == line && LinesOf(s)[1..] == LinesOf(Rest(s));
      if !Contains(line, name) {
        ScanThrowsIff(Rest(s), name, key);
      } else {
        ThrowsIff(line, name);
        if KeyOf(line).Key? {
          ScanThrowsIff(Rest(s), name, KeyOf(line).key);
        }
      }
    }
  }

  /** So a header line with nothing behind the name, ended by a line feed alone, throws. */
  lemma BareNameThrows(name: string, rest: string)
    requires IsName(name)
    ensures Scan(name + "\n" + rest, name, "") == OutOfRange
  {
    var n := |name| - 1;
    FirstIndex(name, '\n', rest, name + "\n" + rest);
    assert Line(name + "\n" + rest) == name;
    FirstIndex(name[..n], ':', "", name);
    assert name <= name;
    ThrowsIff(name, name);
  }
}
