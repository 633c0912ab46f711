// The string operations of Go's strings package that the parsers use.
module Text {

  // ---------- Split and Join ----------

  function Split(s: string, sep: char): (parts: seq<string>)
    ensures |parts| >= 1
  {
    if s == "" then [""]
    else
      var rest := Split(s[1..], sep);
      if s[0] == sep then [""] + rest else [[s[0]] + rest[0]] + rest[1..]
  }

  function Join(parts: seq<string>, sep: char): string {
    if parts == [] then ""
    else if |parts| == 1 then parts[0]
    else parts[0] + [sep] + Join(parts[1..], sep)
  }

  predicate AllFree(parts: seq<string>, c: char) {
    forall i | 0 <= i < |parts| :: c !in parts[i]
  }

  lemma {:induction false} SplitFree(s: string, sep: char)
    requires sep !in s
    ensures Split(s, sep) == [s]
  {
    if s != "" {
      SplitFree(s[1..], sep);
      assert [s[0]] + s[1..] == s;
    }
  }

  lemma {:induction false} SplitFirst(a: string, b: string, sep: char)
    requires sep !in a
    ensures Split(a + [sep] + b, sep) == [a] + Split(b, sep)
  {
    var s := a + [sep] + b;
    if a == "" {
      assert s[1..] == b;
    } else {
      assert s[1..] == a[1..] + [sep] + b;
      SplitFirst(a[1..], b, sep);
      assert [a[0]] + a[1..] == a;
    }
  }

  // Joining pieces that hold no separator loses nothing.
  lemma {:induction false} SplitJoin(parts: seq<string>, sep: char)
    requires parts != [] && AllFree(parts, sep)
    ensures Split(Join(parts, sep), sep) == parts
  {
    if |parts| == 1 {
      SplitFree(parts[0], sep);
    } else {
      SplitJoin(parts[1..], sep);
      SplitFirst(parts[0], Join(parts[1..], sep), sep);
      assert [parts[0]] + parts[1..] == parts;
    }
  }

  // Splitting yields the only separator-free pieces that join to the text.
  lemma {:induction false} JoinSplit(s: string, sep: char)
    ensures AllFree(Split(s, sep), sep) && Join(Split(s, sep), sep) == s
  {
    if s != "" {
      JoinSplit(s[1..], sep);
      var rest, parts := Split(s[1..], sep), Split(s, sep);
      if s[0] == sep {
        assert parts[1..] == rest;
      } else {
        assert parts[1..] == rest[1..];
        assert parts[0] == [s[0]] + rest[0];
      }
      assert [s[0]] + s[1..] == s;
    }
  }

  // ---------- Trimming ----------

  function TrimLeft(s: string, drop: char -> bool): (r: string)
    ensures |r| <= |s| && r == s[|s| - |r|..]
    ensures r != "" ==> !drop(r[0])
  {
    if s != "" && drop(s[0]) then TrimLeft(s[1..], drop) else s
  }

  function TrimRight(s: string, drop: char -> bool): (r: string)
    ensures |r| <= |s| && r == s[..|r|]
    ensures r != "" ==> !drop(r[|r| - 1])
  {
    if s != "" && drop(s[|s| - 1]) then TrimRight(s[..|s| - 1], drop) else s
  }

  function Trim(s: string, drop: char -> bool): string {
    TrimRight(TrimLeft(s, drop), drop)
  }

  predicate AllDropped(s: string, drop: char -> bool) {
    forall i | 0 <= i < |s| :: drop(s[i])
  }

  lemma {:induction false} TrimLeftPadded(left: string, s: string, drop: char -> bool)
    requires AllDropped(left, drop) && (s != "" ==> !drop(s[0]))
    ensures TrimLeft(left + s, drop) == s
  {
    if left == "" {
      assert left + s == s;
    } else {
      assert (left + s)[1..] == left[1..] + s;
      TrimLeftPadded(left[1..], s, drop);
    }
  }

  lemma {:induction false} TrimRightPadded(s: string, right: string, drop: char -> bool)
    requires AllDropped(right, drop) && (s != "" ==> !drop(s[|s| - 1]))
    ensures TrimRight(s + right, drop) == s
  {
    if right == "" {
      assert s + right == s;
    } else {
      var n := |right| - 1;
      assert (s + right)[..|s| + n] == s + right[..n];
      TrimRightPadded(s, right[..n], drop);
    }
  }

  // Trimming removes the padding and nothing else.
  lemma TrimPadded(left: string, s: string, right: string, drop: char -> bool)
    requires AllDropped(left, drop) && AllDropped(right, drop)
    requires s != "" ==> !drop(s[0]) && !drop(s[|s| - 1])
    ensures Trim(left + s + right, drop) == s
  {
    if s == "" {
      assert left + s + right == (left + right) + "";
      TrimLeftPadded(left + right, "", drop);
      TrimRightPadded("", "", drop);
    } else {
      assert left + s + right == left + (s + right);
      TrimLeftPadded(left, s + right, drop);
      TrimRightPadded(s, right, drop);
    }
  }

  // White space as unicode.IsSpace has it.
  predicate IsSpace(c: char) {
    c in " \t\n\r" || c == '\U{b}' || c == '\U{c}' || c == '\U{85}' || c == '\U{a0}'
    || c == '\U{1680}' || '\U{2000}' <= c <= '\U{200a}' || c == '\U{2028}' || c == '\U{2029}'
    || c == '\U{202f}' || c == '\U{205f}' || c == '\U{3000}'
  }

  lemma SpacesOfLatin1(c: char)
    requires c as int < 256
    ensures IsSpace(c) <==> 9 <= c as int <= 13 || c as int in {32, 0x85, 0xA0}
  {
  }

  predicate IsQuote(c: char) {
    c == '"'
  }

  function TrimSpace(s: string): string {
    Trim(s, IsSpace)
  }

  function TrimQuotes(s: string): string {
    Trim(s, IsQuote)
  }

  predicate AllSpace(s: string) {
    AllDropped(s, IsSpace)
  }

  predicate NoSpace(s: string) {
    forall i | 0 <= i < |s| :: !IsSpace(s[i])
  }

  // A text survives having quotes put around it and trimmed off exactly when it has none of its
  // own at its ends.
  lemma TrimQuotesUndoesQuoting(s: string)
    ensures TrimQuotes("\"" + s + "\"") == s <==> s == "" || (s[0] != '"' && s[|s| - 1] != '"')
  {
    if s == "" || (s[0] != '"' && s[|s| - 1] != '"') {
      TrimPadded("\"", s, "\"", IsQuote);
    } else {
      var u := TrimLeft("\"" + s + "\"", IsQuote);
      var r := TrimRight(u, IsQuote);
      assert r != "" ==> r[0] == u[0];
    }
  }

  // ---------- Words ----------

  // The position of `c` in `s`, or the length.
  function IndexOf(s: string, c: char): (i: nat)
    ensures i <= |s| && c !in s[..i] && (i < |s| ==> s[i] == c)
  {
    if s == "" || s[0] == c then 0 else 1 + IndexOf(s[1..], c)
  }

  lemma IndexOfIs(s: string, c: char, i: nat)
    requires i < |s| && s[i] == c && c !in s[..i]
    ensures IndexOf(s, c) == i
  {
  }

  function WordLength(s: string): (n: nat)
    ensures n <= |s| && NoSpace(s[..n]) && (n < |s| ==> IsSpace(s[n]))
  {
    if s == "" || IsSpace(s[0]) then 0 else 1 + WordLength(s[1..])
  }

  // The words of `s`: strings.Fields.
  function Fields(s: string): (words: seq<string>)
    ensures forall i | 0 <= i < |words| :: words[i] != "" && NoSpace(words[i])
    decreases |s|
  {
    if s == "" then []
    else if IsSpace(s[0]) then Fields(s[1..])
    else
      var n := WordLength(s);
      [s[..n]] + Fields(s[n..])
  }

  lemma {:induction false} WordLengthIs(s: string, n: nat)
    requires n <= |s| && NoSpace(s[..n]) && (n < |s| ==> IsSpace(s[n]))
    ensures WordLength(s) == n
  {
  }

  // Words written with one space between them are read back.
  lemma {:induction false} FieldsOfWords(words: seq<string>)
    requires forall i | 0 <= i < |words| :: words[i] != "" && NoSpace(words[i])
    ensures Fields(Join(words, ' ')) == words
  {
    if words != [] {
      var w, s, rest := words[0], Join(words, ' '), Join(words[1..], ' ');
      FieldsOfWords(words[1..]);
      if |words| == 1 {
        assert s == w && s[..|w|] == w && s[|w|..] == "" && words[1..] == [];
      } else {
        assert s == w + ([' '] + rest);
        assert s[..|w|] == w && s[|w|..] == [' '] + rest;
        assert ([' '] + rest)[1..] == rest;
      }
      assert s[0] == w[0];
      WordLengthIs(s, |w|);
      assert [w] + words[1..] == words;
    }
  }

  // ---------- Case ----------

  function LowerChar(c: char): char {
    if 'A' <= c <= 'Z' then (c as int + 32) as char else c
  }

  // Of ASCII letters only.
  function ToLower(s: string): (r: string)
    ensures |r| == |s|
    ensures forall i | 0 <= i < |s| :: r[i] == LowerChar(s[i])
  {
    seq(|s|, i requires 0 <= i < |s| => LowerChar(s[i]))
  }

  // Lower-casing changes the letters A to Z into the letters a to z in their order, and nothing else.
  lemma ToLowerMeans(s: string, i: nat)
    requires i < |s|
    ensures ToLower(s)[i] == (if 'A' <= s[i] <= 'Z' then "abcdefghijklmnopqrstuvwxyz"[s[i] as int - 'A' as int] else s[i])
    ensures !('A' <= ToLower(s)[i] <= 'Z')
  {
    var c := s[i];
    if 'A' <= c <= 'Z' {
      assert "abcdefghijklmnopqrstuvwxyz"[c as int - 'A' as int] == LowerChar(c);
    }
  }

  lemma PostIsLowered()
    ensures ToLower("POST") == "post"
  {
    assert ToLower("POST") == ['p', 'o', 's', 't'];
  }

  // ---------- What trimming and searching leave ----------

  // The text is what trimming leaves, between two runs of dropped characters, and nothing at its
  // ends could have been dropped as well.
  lemma TrimMeans(s: string, drop: char -> bool) returns (left: string, right: string)
    ensures s == left + Trim(s, drop) + right && AllDropped(left, drop) && AllDropped(right, drop)
    ensures Trim(s, drop) != "" ==> !drop(Trim(s, drop)[0]) && !drop(Trim(s, drop)[|Trim(s, drop)| - 1])
  {
    hide TrimLeft, TrimRight, AllDropped;
    var u := TrimLeft(s, drop);
    var r := TrimRight(u, drop);
    left, right := s[..|s| - |u|], u[|r|..];
    DroppedOnTheLeft(s, drop);
    DroppedOnTheRight(u, drop);
    assert s == left + u && u == r + right;
    assert r != "" ==> r[0] == u[0];
  }

  lemma {:induction false} DroppedOnTheLeft(s: string, drop: char -> bool)
    ensures AllDropped(s[..|s| - |TrimLeft(s, drop)|], drop)
  {
    if s != "" && drop(s[0]) {
      DroppedOnTheLeft(s[1..], drop);
      var n := |s| - |TrimLeft(s, drop)|;
      assert s[..n] == [s[0]] + s[1..][..n - 1];
    }
  }

  lemma {:induction false} DroppedOnTheRight(s: string, drop: char -> bool)
    ensures AllDropped(s[|TrimRight(s, drop)|..], drop)
  {
    if s != "" && drop(s[|s| - 1]) {
      var n := |s| - 1;
      DroppedOnTheRight(s[..n], drop);
      var m := |TrimRight(s, drop)|;
      assert s[m..] == s[..n][m..] + [s[n]];
    }
  }

  // White space of any length separates words, and only white space does.
  lemma {:induction false} FieldsAtGap(a: string, gap: string, b: string)
    requires AllSpace(gap) && gap != ""
    ensures Fields(a + gap + b) == Fields(a) + Fields(b)
    decreases |a| + |gap|
  {
    hide IsSpace;
    var s := a + gap + b;
    if a == "" {
      assert s[1..] == gap[1..] + b && IsSpace(gap[0]) && s[0] == gap[0];
      if |gap| == 1 {
        assert s[1..] == b;
      } else {
        assert "" + gap[1..] + b == s[1..];
        FieldsAtGap("", gap[1..], b);
      }
    } else if IsSpace(a[0]) {
      assert s[0] == a[0] && s[1..] == a[1..] + gap + b;
      FieldsAtGap(a[1..], gap, b);
    } else {
      var n := WordLength(a);
      WordAtStart(a, gap, b);
      assert s[..n] == a[..n] && s[n..] == a[n..] + gap + b && s[0] == a[0];
      FieldsAtGap(a[n..], gap, b);
      assert [a[..n]] + (Fields(a[n..]) + Fields(b)) == ([a[..n]] + Fields(a[n..])) + Fields(b);
    }
  }

  lemma WordAtStart(a: string, gap: string, b: string)
    requires a != "" && !IsSpace(a[0]) && AllSpace(gap) && gap != ""
    ensures WordLength(a + gap + b) == WordLength(a) > 0
  {
    hide IsSpace;
    var s, n := a + gap + b, WordLength(a);
    assert s[..n] == a[..n];
    assert IsSpace(gap[0]);
    assert s[n] == if n < |a| then a[n] else gap[0];
    WordLengthIs(s, n);
  }
}
