/** The few JavaScript string operations the modelled modules use. */
module Text {
  import opened Sequences

  /** `text.length`: characters outside the Basic Multilingual Plane take two UTF-16 code units. */
  function UnitCount(text: string): (n: nat)
    ensures |text| <= n <= 2 * |text|
  {
    if text == "" then 0 else (if text[0] as int >= 0x1_0000 then 2 else 1) + UnitCount(text[1..])
  }

  /** Characters matched by `\s` and removed by `trim`. */
  predicate IsSpace(c: char) {
    || '\t' <= c <= '\r' || c == ' ' || c == '\U{A0}' || c == '\U{1680}' || '\U{2000}' <= c <= '\U{200A}'
    || c == '\U{2028}' || c == '\U{2029}' || c == '\U{202F}' || c == '\U{205F}' || c == '\U{3000}' || c == '\U{FEFF}'
  }

  function TrimStart(s: string): (r: string)
    ensures r == "" || !IsSpace(r[0])
    ensures s != "" && !IsSpace(s[0]) ==> r == s
  {
    if s != "" && IsSpace(s[0]) then TrimStart(s[1..]) else s
  }

  function TrimEnd(s: string): (r: string)
    ensures r == "" || !IsSpace(r[|r| - 1])
    ensures s != "" && !IsSpace(s[|s| - 1]) ==> r == s
    ensures r <= s
  {
    if s != "" && IsSpace(s[|s| - 1]) then TrimEnd(s[..|s| - 1]) else s
  }

  function Trim(s: string): string {
    TrimEnd(TrimStart(s))
  }

  /** Nothing at either end for `trim` to remove. */
  predicate Trimmed(s: string) {
    s == "" || (!IsSpace(s[0]) && !IsSpace(s[|s| - 1]))
  }

  lemma TrimIsTrimmed(s: string)
    ensures Trimmed(Trim(s))
    ensures Trimmed(s) ==> Trim(s) == s
  {
  }

  /** The white space and line terminators of ECMA-262 (tables 33 and 34), by code point. */
  lemma SpacesAre(c: char)
    ensures IsSpace(c)
       <==> c as int in [0x9, 0xa, 0xb, 0xc, 0xd, 0x20, 0xa0, 0x1680, 0x2000, 0x2001, 0x2002, 0x2003, 0x2004, 0x2005,
                         0x2006, 0x2007, 0x2008, 0x2009, 0x200a, 0x2028, 0x2029, 0x202f, 0x205f, 0x3000, 0xfeff]
  {
  }

  predicate AllSpaces(text: string) {
    forall k :: 0 <= k < |text| ==> IsSpace(text[k])
  }

  lemma {:induction false} TrimStartRemoves(s: string) returns (spaces: string)
    ensures AllSpaces(spaces) && s == spaces + TrimStart(s)
  {
    hide IsSpace;
    if s != "" && IsSpace(s[0]) {
      var rest := TrimStartRemoves(s[1..]);
      spaces := [s[0]] + rest;
      assert s == [s[0]] + s[1..];
      Associative([s[0]], rest, TrimStart(s[1..]));
    } else {
      spaces := "";
      assert "" + s == s;
    }
  }

  lemma {:induction false} TrimEndRemoves(s: string) returns (spaces: string)
    ensures AllSpaces(spaces) && s == TrimEnd(s) + spaces
  {
    hide IsSpace;
    if s != "" && IsSpace(s[|s| - 1]) {
      var init, last := s[..|s| - 1], [s[|s| - 1]];
      var rest := TrimEndRemoves(init);
      spaces := rest + last;
      assert s == init + last;
      Associative(TrimEnd(init), rest, last);
    } else {
      spaces := "";
      assert s + "" == s;
    }
  }

  /** Trimming takes off white space at the two ends, all of it, and nothing else. */
  lemma TrimRemovesSpaces(s: string) returns (before: string, after: string)
    ensures AllSpaces(before) && AllSpaces(after) && s == before + Trim(s) + after && Trimmed(Trim(s))
  {
    before := TrimStartRemoves(s);
    after := TrimEndRemoves(TrimStart(s));
    TrimIsTrimmed(s);
    hide IsSpace, TrimStart, TrimEnd;
    Associative(before, Trim(s), after);
  }

  lemma {:induction false} TrimOfSpaces(s: string)
    requires AllSpaces(s)
    ensures TrimStart(s) == ""
  {
    hide IsSpace;
    if s != "" { TrimOfSpaces(s[1..]); }
  }

  /** A text trims to nothing exactly when it is all white space. */
  lemma BlankMeans(s: string)
    ensures Trim(s) == "" <==> AllSpaces(s)
  {
    if AllSpaces(s) { TrimOfSpaces(s); }
    var before, after := TrimRemovesSpaces(s);
    hide IsSpace, Trim;
    if Trim(s) == "" {
      forall k | 0 <= k < |s| ensures IsSpace(s[k]) {
        assert s == before + after;
        if k < |before| { assert s[k] == before[k]; } else { assert s[k] == after[k - |before|]; }
      }
    }
  }

  /** `texts.join("")` */
  function Concat(texts: seq<string>): string {
    if texts == [] then "" else texts[0] + Concat(texts[1..])
  }

  lemma {:induction false} ConcatAppend(s: seq<string>, t: seq<string>)
    ensures Concat(s + t) == Concat(s) + Concat(t)
  {
    if s == [] {
      assert s + t == t;
    } else {
      ConcatAppend(s[1..], t);
      assert (s + t)[1..] == s[1..] + t;
      Associative(s[0], Concat(s[1..]), Concat(t));
    }
  }

  // ---------------------------------------------------------------- lines

  /** `text.split("\n")` */
  function Split(text: string): (lines: seq<string>)
    ensures lines != []
  {
    if text == "" then [""]
    else
      var rest := Split(text[1..]);
      if text[0] == '\n' then [""] + rest else [[text[0]] + rest[0]] + rest[1..]
  }

  /** `lines.join("\n")` */
  function JoinLines(lines: seq<string>): string {
    if lines == [] then ""
    else if |lines| == 1 then lines[0]
    else lines[0] + "\n" + JoinLines(lines[1..])
  }

  lemma {:induction false} JoinSplit(text: string)
    ensures JoinLines(Split(text)) == text
  {
    if text != "" {
      JoinSplit(text[1..]);
      var rest := Split(text[1..]);
      var lines := Split(text);
      if text[0] == '\n' {
        assert lines[1..] == rest;
      } else {
        assert lines[1..] == rest[1..];
      }
      assert [text[0]] + text[1..] == text;
    }
  }

  predicate IsLine(line: string) {
    '\n' !in line
  }

  /** No line holds a line break. */
  lemma {:induction false} SplitIntoLines(text: string)
    ensures forall k :: 0 <= k < |Split(text)| ==> IsLine(Split(text)[k])
  {
    if text != "" { SplitIntoLines(text[1..]); }
  }

  /** Any list of lines is what its joined text splits into. */
  lemma {:induction false} SplitJoin(lines: seq<string>)
    requires lines != [] && forall k :: 0 <= k < |lines| ==> IsLine(lines[k])
    ensures Split(JoinLines(lines)) == lines
    decreases |lines|
  {
    if |lines| == 1 {
      SplitLine(lines[0]);
    } else {
      SplitJoin(lines[1..]);
      SplitLineBreak(lines[0], JoinLines(lines[1..]));
    }
  }

  lemma {:induction false} SplitLine(line: string)
    requires IsLine(line)
    ensures Split(line) == [line]
  {
    if line != "" {
      SplitLine(line[1..]);
      assert line[0] != '\n' && [line[0]] + line[1..] == line;
      assert [line[1..]][1..] == [];
    }
  }

  lemma {:induction false} SplitLineBreak(line: string, rest: string)
    requires IsLine(line)
    ensures Split(line + "\n" + rest) == [line] + Split(rest)
  {
    var text := line + "\n" + rest;
    if line == "" {
      assert text[1..] == rest;
    } else {
      SplitLineBreak(line[1..], rest);
      assert text[1..] == line[1..] + "\n" + rest && text[0] == line[0] != '\n';
      var tail := [line[1..]] + Split(rest);
      assert tail[1..] == Split(rest) && [line[0]] + line[1..] == line;
    }
  }
}
