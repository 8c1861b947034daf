/** White space, trimming and joining, as the Go `strings` package defines them. */
module Text {

  predicate IsSpace(c: char) {
    || '\t' <= c <= '\r'
    || c == ' '
    || c == '\U{0085}' || c == '\U{00A0}' || c == '\U{1680}'
    || '\U{2000}' <= c <= '\U{200A}'
    || c == '\U{2028}' || c == '\U{2029}' || c == '\U{202F}' || c == '\U{205F}' || c == '\U{3000}'
  }

  function TrimLeft(s: string): string {
    if |s| > 0 && IsSpace(s[0]) then TrimLeft(s[1..]) else s
  }

  function TrimRight(s: string): string {
    if |s| > 0 && IsSpace(s[|s| - 1]) then TrimRight(s[..|s| - 1]) else s
  }

  /** `strings.TrimSpace` */
  function Trim(s: string): string {
    TrimRight(TrimLeft(s))
  }

  predicate IsBlank(s: string) { Trim(s) == "" }

  /** The length of a string in UTF-8 bytes, which is what Go's `len` measures. */
  function ByteLength(s: string): nat {
    if |s| == 0 then 0 else CharBytes(s[0]) + ByteLength(s[1..])
  }

  function CharBytes(c: char): nat {
    if c <= '\U{7F}' then 1 else if c <= '\U{7FF}' then 2 else if c <= '\U{FFFF}' then 3 else 4
  }

  function RemoveCommas(s: string): string {
    if |s| == 0 then ""
    else (if s[0] == ',' then "" else [s[0]]) + RemoveCommas(s[1..])
  }

  predicate NoSpaceOrComma(s: string) {
    forall i :: 0 <= i < |s| ==> !IsSpace(s[i]) && s[i] != ','
  }

  /** Text without white space and commas is left alone by the cleaning that precedes number parsing. */
  lemma {:induction false} CleanTextUnchanged(s: string)
    requires NoSpaceOrComma(s)
    ensures Trim(s) == s && RemoveCommas(s) == s
  {
    if |s| > 0 {
      CleanTextUnchanged(s[1..]);
      assert s == [s[0]] + s[1..];
    }
  }

  /** `strings.ToUpper` on ASCII letters and on the two other letters it turns into ASCII. */
  function UpperChar(c: char): char {
    if 'a' <= c <= 'z' then (c as int - 32) as char
    else if c == '\U{017F}' then 'S'
    else if c == '\U{0131}' then 'I'
    else c
  }

  function Upper(s: string): (r: string)
    ensures |r| == |s| && forall i :: 0 <= i < |s| ==> r[i] == UpperChar(s[i])
  {
    seq(|s|, i requires 0 <= i < |s| => UpperChar(s[i]))
  }

  lemma {:induction false} CapitalsUnchanged(s: string)
    requires forall i :: 0 <= i < |s| ==> 'A' <= s[i] <= 'Z'
    ensures Trim(s) == s && Upper(s) == s
  {
    CleanTextUnchanged(s);
  }

  /** `strings.Contains` */
  predicate Contains(s: string, part: string) {
    exists i :: 0 <= i <= |s| && HasAt(s, part, i)
  }

  predicate HasAt(s: string, part: string, i: nat)
    requires i <= |s|
  {
    part <= s[i..]
  }

  /** The length of the run of non-spaces a text begins with. */
  function WordLength(s: string): (n: nat)
    ensures n <= |s| && (|s| > 0 && !IsSpace(s[0]) ==> n > 0)
  {
    if |s| > 0 && !IsSpace(s[0]) then 1 + WordLength(s[1..]) else 0
  }

  /** `strings.Fields` */
  function Fields(s: string): seq<string>
    decreases |s|
  {
    if |s| == 0 then []
    else if IsSpace(s[0]) then Fields(s[1..])
    else [s[..WordLength(s)]] + Fields(s[WordLength(s)..])
  }

  function JoinWords(words: seq<string>): string {
    if |words| == 0 then ""
    else if |words| == 1 then words[0]
    else words[0] + " " + JoinWords(words[1..])
  }

  /** White space collapsed to single spaces. */
  function Clean(s: string): string { JoinWords(Fields(s)) }

  lemma {:induction false} FieldsAreWords(s: string)
    ensures forall k :: 0 <= k < |Fields(s)| ==> |Fields(s)[k]| > 0 && !IsSpace(Fields(s)[k][0])
    decreases |s|
  {
    if |s| > 0 {
      if IsSpace(s[0]) { FieldsAreWords(s[1..]); } else { FieldsAreWords(s[WordLength(s)..]); }
    }
  }

  lemma {:induction false} TrimKeepsWord(s: string)
    requires |s| > 0 && !IsSpace(s[0])
    ensures Trim(s) != ""
  {
    TrimRightKeepsWord(s);
  }

  lemma {:induction false} TrimRightKeepsWord(s: string)
    requires |s| > 0 && !IsSpace(s[0])
    ensures TrimRight(s) != ""
  {
    if IsSpace(s[|s| - 1]) { TrimRightKeepsWord(s[..|s| - 1]); }
  }

  /** Cleaned text is blank only when it is empty. */
  lemma {:induction false} CleanIsBlankOrEmpty(s: string)
    ensures Trim(Clean(s)) == "" <==> Clean(s) == ""
  {
    FieldsAreWords(s);
    if Clean(s) != "" {
      var words := Fields(s);
      assert Clean(s)[0] == words[0][0];
      TrimKeepsWord(Clean(s));
    }
  }

  /** A single word is clean already. */
  lemma {:induction false} WordIsClean(s: string)
    requires |s| > 0 && forall i :: 0 <= i < |s| ==> !IsSpace(s[i])
    ensures Clean(s) == s
  {
    WholeWord(s);
    assert s[|s|..] == "" && s[..|s|] == s;
    assert Fields(s) == [s] + Fields("");
  }

  lemma {:induction false} WholeWord(s: string)
    requires forall i :: 0 <= i < |s| ==> !IsSpace(s[i])
    ensures WordLength(s) == |s|
  {
    if |s| > 0 { WholeWord(s[1..]); }
  }

  // ---------- what these functions mean ----------

  predicate AllSpaces(s: string) { forall i :: 0 <= i < |s| ==> IsSpace(s[i]) }

  predicate NoSpaces(s: string) { forall i :: 0 <= i < |s| ==> !IsSpace(s[i]) }

  lemma {:induction false} TrimLeftTakes(s: string) returns (before: string)
    ensures AllSpaces(before) && s == before + TrimLeft(s)
    ensures TrimLeft(s) == "" || !IsSpace(TrimLeft(s)[0])
  {
    before := "";
    if |s| > 0 && IsSpace(s[0]) {
      var more := TrimLeftTakes(s[1..]);
      before := [s[0]] + more;
      assert TrimLeft(s) == TrimLeft(s[1..]);
      hide IsSpace, TrimLeft;
      Regroup([s[0]], more, TrimLeft(s));
      assert s == [s[0]] + s[1..];
    }
  }

  lemma {:induction false} TrimRightTakes(s: string) returns (after: string)
    ensures AllSpaces(after) && s == TrimRight(s) + after
    ensures TrimRight(s) == "" || !IsSpace(TrimRight(s)[|TrimRight(s)| - 1])
  {
    after := "";
    if |s| > 0 && IsSpace(s[|s| - 1]) {
      var more := TrimRightTakes(s[..|s| - 1]);
      after := more + [s[|s| - 1]];
      assert TrimRight(s) == TrimRight(s[..|s| - 1]);
      hide IsSpace, TrimRight;
      Regroup(TrimRight(s), more, [s[|s| - 1]]);
      assert s == s[..|s| - 1] + [s[|s| - 1]];
    }
  }

  /** Trimming takes away white space at both ends, and all of it. */
  lemma {:induction false} TrimExactly(s: string) returns (before: string, after: string)
    ensures AllSpaces(before) && AllSpaces(after) && s == before + Trim(s) + after
    ensures Trim(s) == "" || (!IsSpace(Trim(s)[0]) && !IsSpace(Trim(s)[|Trim(s)| - 1]))
  {
    before := TrimLeftTakes(s);
    after := TrimRightTakes(TrimLeft(s));
    hide TrimLeft, TrimRight;
    assert before + TrimRight(TrimLeft(s)) + after == before + (TrimRight(TrimLeft(s)) + after);
    if Trim(s) != "" { assert TrimLeft(s)[0] == Trim(s)[0]; }
  }

  lemma {:induction false} Regroup(a: string, b: string, c: string)
    ensures a + b + c == a + (b + c)
  {}

  /** Removing commas goes piece by piece: a comma leaves nothing, any other character itself. */
  lemma {:induction false} CommasExactly(a: string, b: string, c: char)
    ensures RemoveCommas(a + b) == RemoveCommas(a) + RemoveCommas(b)
    ensures RemoveCommas([c]) == if c == ',' then "" else [c]
  {
    if |a| == 0 {
      assert a + b == b;
    } else {
      CommasExactly(a[1..], b, c);
      assert (a + b)[1..] == a[1..] + b;
      Regroup(if a[0] == ',' then "" else [a[0]], RemoveCommas(a[1..]), RemoveCommas(b));
    }
  }

  /** White space in front of a text and after a word does not count; what stands between is a word. */
  lemma {:induction false} FieldsExactly(gap: string, word: string, rest: string)
    requires AllSpaces(gap) && |word| > 0 && NoSpaces(word) && (rest == "" || IsSpace(rest[0]))
    ensures Fields(gap) == []
    ensures Fields(gap + word + rest) == [word] + Fields(rest)
  {
    if |gap| > 0 {
      FieldsExactly(gap[1..], word, rest);
      assert (gap + word + rest)[1..] == gap[1..] + word + rest;
    } else {
      var s := word + rest;
      WordEnds(word, rest);
      assert gap + word + rest == s;
      assert s[..|word|] == word && s[|word|..] == rest && s[0] == word[0];
    }
  }

  lemma {:induction false} WordEnds(word: string, rest: string)
    requires NoSpaces(word) && (rest == "" || IsSpace(rest[0]))
    ensures WordLength(word + rest) == |word|
  {
    if |word| > 0 {
      WordEnds(word[1..], rest);
      assert (word + rest)[1..] == word[1..] + rest;
    } else {
      assert word + rest == rest;
    }
  }

  /** The length in bytes adds up, and a character takes one to four of them. */
  lemma {:induction false} BytesExactly(a: string, b: string, c: char)
    ensures ByteLength(a + b) == ByteLength(a) + ByteLength(b)
    ensures ByteLength([c]) == if c as int < 0x80 then 1 else if c as int < 0x800 then 2
                               else if c as int < 0x1_0000 then 3 else 4
  {
    if |a| == 0 {
      assert a + b == b;
    } else {
      BytesExactly(a[1..], b, c);
      assert (a + b)[1..] == a[1..] + b;
    }
  }

  /** White space by code point: the controls from tab to return, the space, and the Unicode spaces. */
  lemma {:induction false} SpacesExactly(c: char)
    ensures IsSpace(c) <==>
            var n := c as int;
            9 <= n <= 13 || 0x2000 <= n <= 0x200A
            || n in {32, 0x85, 0xA0, 0x1680, 0x2028, 0x2029, 0x202F, 0x205F, 0x3000}
  {}

  /** Upper case by code point: the small Latin letters, and the two others that have ASCII capitals. */
  lemma {:induction false} UpperExactly(c: char)
    ensures var n := c as int;
            UpperChar(c) as int ==
            if 97 <= n <= 122 then n - 32 else if n == 383 then 83 else if n == 305 then 73 else n
  {}

  /** A text is blank if and only if it is nothing but white space. */
  lemma {:induction false} BlankExactly(s: string)
    ensures IsBlank(s) <==> AllSpaces(s)
  {
    var before, after := TrimExactly(s);
    hide Trim;
    if Trim(s) != "" { assert s[|before|] == Trim(s)[0]; }
  }

  /** One text contains another if and only if it is something, then that, then something. */
  lemma {:induction false} ContainsExactly(s: string, part: string)
    ensures Contains(s, part) <==> exists before, after :: s == before + (part + after)
  {
    if Contains(s, part) {
      var i :| 0 <= i <= |s| && HasAt(s, part, i);
      assert s == s[..i] + (part + s[i..][|part|..]);
    }
    if exists before, after :: s == before + (part + after) {
      var before, after :| s == before + (part + after);
      assert s[|before|..] == part + after;
      assert HasAt(s, part, |before|);
    }
  }
}
