/** The `String.prototype` operations the source uses: `trim`, `toUpperCase`,
    `toLowerCase`, `split`, `includes`, and `replace(/[$,]/g, '')`. */
module JsStrings {

  /** The code points `String.prototype.trim` removes: ECMAScript WhiteSpace
      (tab, vertical tab, form feed, space, no-break space, the byte order mark
      and the space separators) and LineTerminator. */
  predicate IsSpace(c: char) {
    c == '\t' || c == '\n' || c == '\U{000B}' || c == '\U{000C}' || c == '\r' || c == ' '
    || c == '\U{00A0}' || c == '\U{1680}' || ('\U{2000}' <= c <= '\U{200A}')
    || c == '\U{2028}' || c == '\U{2029}' || c == '\U{202F}' || c == '\U{205F}'
    || c == '\U{3000}' || c == '\U{FEFF}'
  }

  /** True when the string holds nothing but white space. */
  predicate Blank(s: string) {
    forall i :: 0 <= i < |s| ==> IsSpace(s[i])
  }

  /** `s` with its leading white space removed. */
  function TrimStart(s: string): (r: string)
    ensures |r| <= |s| && r == s[|s| - |r|..]
    ensures r == [] || !IsSpace(r[0])
    ensures Blank(s[..|s| - |r|])
    decreases |s|
  {
    if s != [] && IsSpace(s[0]) then TrimStart(s[1..]) else s
  }

  /** `s` with its trailing white space removed. */
  function TrimEnd(s: string): (r: string)
    ensures |r| <= |s| && r == s[..|r|]
    ensures r == [] || !IsSpace(r[|r| - 1])
    ensures Blank(s[|r|..])
    decreases |s|
  {
    if s != [] && IsSpace(s[|s| - 1]) then
      var r := TrimEnd(s[..|s| - 1]);
      assert s[|r|..] == s[..|s| - 1][|r|..] + [s[|s| - 1]];
      r
    else s
  }

  /** `s` with white space removed at both ends. */
  function Trim(s: string): string {
    TrimEnd(TrimStart(s))
  }

  /** Where the trimmed text sits inside the input. */
  lemma TrimBounds(s: string) returns (i: nat, j: nat)
    ensures i <= j <= |s| && Trim(s) == s[i..j]
  {
    var t := TrimStart(s);
    i := |s| - |t|;
    j := i + |TrimEnd(t)|;
    assert t[..|TrimEnd(t)|] == s[i..j];
  }

  /** A string with no white space at either end is its own trim. */
  lemma TrimKeeps(s: string)
    requires s == [] || (!IsSpace(s[0]) && !IsSpace(s[|s| - 1]))
    ensures Trim(s) == s
  {
  }

  /** What `trim` keeps is a slice of the input with white space only
      around it, and it is empty exactly when the input is blank. */
  lemma TrimSpec(s: string)
    ensures exists i, j :: 0 <= i <= j <= |s| && Trim(s) == s[i..j] && Blank(s[..i]) && Blank(s[j..])
    ensures Trim(s) == [] || (!IsSpace(Trim(s)[0]) && !IsSpace(Trim(s)[|Trim(s)| - 1]))
    ensures Trim(s) == [] <==> Blank(s)
  {
    var t := TrimStart(s);
    var i := |s| - |t|;
    var j := i + |TrimEnd(t)|;
    assert t == s[i..];
    assert Trim(s) == s[i..j];
    assert s[j..] == t[|TrimEnd(t)|..];
  }

  /** Trimming twice trims nothing more. */
  lemma TrimTwice(s: string)
    ensures Trim(Trim(s)) == Trim(s)
  {
    TrimSpec(s);
    var t := Trim(s);
    assert TrimStart(t) == t;
    assert TrimEnd(t) == t;
  }

  /** Upper-case mapping of one character: the ASCII and Latin-1 lower-case
      letters (the ones Spanish names use), `ÿ` to `Ÿ` (U+0178) and the micro
      sign `µ` to the Greek capital mu (U+039C); every other character is
      unchanged. */
  function UpperChar(c: char): (r: char)
    ensures 'a' <= c <= 'z' ==> r as int == c as int - 32
    ensures c == '\U{00FF}' ==> r == '\U{0178}'
    ensures c == '\U{00B5}' ==> r == '\U{039C}'
    ensures !IsLowerLetter(c) && c != '\U{00FF}' && c != '\U{00B5}' ==> r == c
  {
    if IsLowerLetter(c) then (c as int - 32) as char
    else if c == '\U{00FF}' then '\U{0178}'
    else if c == '\U{00B5}' then '\U{039C}'
    else c
  }

  /** Lower-case mapping of one character: the ASCII and Latin-1 capitals,
      and `Ÿ` back to `ÿ`; every other character is unchanged. */
  function LowerChar(c: char): (r: char)
    ensures 'A' <= c <= 'Z' ==> r as int == c as int + 32
    ensures c == '\U{0178}' ==> r == '\U{00FF}'
    ensures !IsUpperLetter(c) && c != '\U{0178}' ==> r == c
  {
    if IsUpperLetter(c) then (c as int + 32) as char
    else if c == '\U{0178}' then '\U{00FF}'
    else c
  }

  predicate IsLowerLetter(c: char) {
    ('a' <= c <= 'z') || ('\U{00E0}' <= c <= '\U{00FE}' && c != '\U{00F7}')
  }

  predicate IsUpperLetter(c: char) {
    ('A' <= c <= 'Z') || ('\U{00C0}' <= c <= '\U{00DE}' && c != '\U{00D7}')
  }

  /** Upper-casing, one character at a time; the length never changes. */
  function ToUpper(s: string): (r: string)
    ensures |r| == |s|
    ensures forall i :: 0 <= i < |s| ==> r[i] == UpperChar(s[i])
  {
    seq(|s|, i requires 0 <= i < |s| => UpperChar(s[i]))
  }

  /** Lower-casing, one character at a time; the length never changes. */
  function ToLower(s: string): (r: string)
    ensures |r| == |s|
    ensures forall i :: 0 <= i < |s| ==> r[i] == LowerChar(s[i])
  {
    seq(|s|, i requires 0 <= i < |s| => LowerChar(s[i]))
  }

  /** Case mapping never touches white space, so `toUpperCase` and `trim`
      commute, and upper-casing twice changes nothing. */
  lemma UpperTrim(s: string)
    ensures ToUpper(Trim(s)) == Trim(ToUpper(s))
    ensures ToUpper(ToUpper(s)) == ToUpper(s)
  {
    UpperTrimStart(s);
    UpperTrimEnd(TrimStart(s));
  }

  lemma {:induction false} UpperTrimStart(s: string)
    ensures ToUpper(TrimStart(s)) == TrimStart(ToUpper(s))
    decreases |s|
  {
    if s != [] {
      assert ToUpper(s)[1..] == ToUpper(s[1..]);
      UpperSpace(s[0]);
      if IsSpace(s[0]) { UpperTrimStart(s[1..]); }
    }
  }

  lemma {:induction false} UpperTrimEnd(s: string)
    ensures ToUpper(TrimEnd(s)) == TrimEnd(ToUpper(s))
    decreases |s|
  {
    if s != [] {
      assert ToUpper(s)[..|s| - 1] == ToUpper(s[..|s| - 1]);
      UpperSpace(s[|s| - 1]);
      if IsSpace(s[|s| - 1]) { UpperTrimEnd(s[..|s| - 1]); }
    }
  }

  /** Upper-casing maps white space to itself and nothing else to white space. */
  lemma UpperSpace(c: char)
    ensures IsSpace(UpperChar(c)) == IsSpace(c)
    ensures IsSpace(c) ==> UpperChar(c) == c
  {
  }

  /** True when `sub` occurs in `s` at position `i`. */
  predicate OccursAt(s: string, sub: string, i: int) {
    0 <= i && i + |sub| <= |s| && s[i..i + |sub|] == sub
  }

  /** `s.indexOf(sub)`: the first position where `sub` occurs, or -1. */
  function IndexOf(s: string, sub: string): (r: int)
    ensures r == -1 || OccursAt(s, sub, r)
    ensures forall i :: 0 <= i && (r == -1 || i < r) ==> !OccursAt(s, sub, i)
  {
    IndexFrom(s, sub, 0)
  }

  function IndexFrom(s: string, sub: string, k: nat): (r: int)
    requires k <= |s| + 1
    ensures r == -1 || (k <= r && OccursAt(s, sub, r))
    ensures forall i :: k <= i && (r == -1 || i < r) ==> !OccursAt(s, sub, i)
    decreases |s| + 1 - k
  {
    if k + |sub| > |s| then -1
    else if s[k..k + |sub|] == sub then k
    else IndexFrom(s, sub, k + 1)
  }

  /** Whether `sub` occurs in `s`. */
  predicate Includes(s: string, sub: string) {
    IndexOf(s, sub) >= 0
  }

  /** `includes` holds exactly when `sub` occurs somewhere in `s`. */
  lemma IncludesSpec(s: string, sub: string)
    ensures Includes(s, sub) <==> exists i :: OccursAt(s, sub, i)
  {
  }

  /** `s.split(sep)` for a non-empty separator: the pieces between the
      left-to-right, non-overlapping occurrences of `sep`. */
  function Split(s: string, sep: string): (r: seq<string>)
    requires sep != []
    ensures |r| >= 1
    decreases |s|
  {
    var i := IndexOf(s, sep);
    if i < 0 then [s] else [s[..i]] + Split(s[i + |sep|..], sep)
  }

  /** The pieces concatenated with `sep` between each two neighbours. */
  function Join(pieces: seq<string>, sep: string): string {
    if pieces == [] then []
    else if |pieces| == 1 then pieces[0]
    else pieces[0] + sep + Join(pieces[1..], sep)
  }

  /** `split` loses nothing: joining the pieces back gives the input. */
  lemma {:induction false} SplitJoin(s: string, sep: string)
    requires sep != []
    ensures Join(Split(s, sep), sep) == s
    decreases |s|
  {
    var i := IndexOf(s, sep);
    if i >= 0 {
      var rest := s[i + |sep|..];
      SplitJoin(rest, sep);
      SplitAt(s, sep, i);
      JoinCons(s[..i], Split(rest, sep), sep);
    }
  }

  /** Where the first separator is, the split is the text before it
      followed by the split of the text after it, and the input is those
      parts around the separator. */
  lemma SplitAt(s: string, sep: string, i: int)
    requires sep != [] && i == IndexOf(s, sep) && i >= 0
    ensures Split(s, sep) == [s[..i]] + Split(s[i + |sep|..], sep)
    ensures s == s[..i] + sep + s[i + |sep|..]
  {
    assert s[i..i + |sep|] == sep;
    assert s == s[..i] + s[i..i + |sep|] + s[i + |sep|..];
  }

  lemma JoinCons(p: string, r: seq<string>, sep: string)
    requires |r| >= 1
    ensures Join([p] + r, sep) == p + sep + Join(r, sep)
  {
    assert ([p] + r)[1..] == r;
  }

  /** No piece of a `split` contains the separator. */
  lemma {:induction false} SplitPiecesLackSeparator(s: string, sep: string)
    requires sep != []
    ensures forall k :: 0 <= k < |Split(s, sep)| ==> !Includes(Split(s, sep)[k], sep)
    decreases |s|
  {
    var i := IndexOf(s, sep);
    if i >= 0 {
      var rest := s[i + |sep|..];
      SplitPiecesLackSeparator(rest, sep);
      BeforeFirstLacks(s, sep, i);
      var r := Split(s, sep);
      forall k | 0 <= k < |r| ensures !Includes(r[k], sep) {
        if k > 0 { assert r[k] == Split(rest, sep)[k - 1]; }
      }
    }
  }

  /** The text before the first occurrence of `sep` does not contain it. */
  lemma BeforeFirstLacks(s: string, sep: string, i: int)
    requires sep != [] && i == IndexOf(s, sep) && i >= 0
    ensures !Includes(s[..i], sep)
  {
    if Includes(s[..i], sep) {
      var j := IndexOf(s[..i], sep);
      assert s[..i][j..j + |sep|] == s[j..j + |sep|];
      assert OccursAt(s, sep, j);
      assert false;
    }
  }

  /** A string in which the separator's first character never occurs splits
      into itself alone. */
  lemma SplitNone(s: string, sep: string)
    requires sep != [] && forall i :: 0 <= i < |s| ==> s[i] != sep[0]
    ensures Split(s, sep) == [s]
  {
    forall j | 0 <= j && j + |sep| <= |s| ensures !OccursAt(s, sep, j) {
      assert s[j..j + |sep|][0] == s[j];
    }
  }

  /** Splitting `a + sep + b`, where `a` never holds the separator's first
      character, cuts first right after `a`. */
  lemma SplitAfter(a: string, sep: string, b: string)
    requires sep != [] && forall i :: 0 <= i < |a| ==> a[i] != sep[0]
    ensures Split(a + sep + b, sep) == [a] + Split(b, sep)
  {
    var s := a + sep + b;
    assert OccursAt(s, sep, |a|) by {
      assert s[|a|..|a| + |sep|] == sep;
    }
    forall i | 0 <= i < |a| ensures !OccursAt(s, sep, i) {
      assert s[i] == a[i];
    }
    assert IndexOf(s, sep) == |a|;
    assert s[..|a|] == a;
    assert s[|a| + |sep|..] == b;
  }

  /** `s.replace(/[$,]/g, '')`: every `$` and `,` deleted. */
  function StripMoney(s: string): (r: string)
    ensures forall i :: 0 <= i < |r| ==> r[i] != '$' && r[i] != ','
    ensures |r| <= |s|
  {
    if s == [] then []
    else if s[0] == '$' || s[0] == ',' then StripMoney(s[1..])
    else [s[0]] + StripMoney(s[1..])
  }

  /** Deleting `$` and `,` distributes over concatenation. */
  lemma {:induction false} StripMoneyAppend(a: string, b: string)
    ensures StripMoney(a + b) == StripMoney(a) + StripMoney(b)
    decreases |a|
  {
    if a != [] {
      var ab := a + b;
      assert ab != [] && ab[0] == a[0];
      assert ab[1..] == a[1..] + b;
      StripMoneyAppend(a[1..], b);
      if a[0] == '$' || a[0] == ',' {
        assert StripMoney(ab) == StripMoney(a[1..] + b);
      } else {
        assert StripMoney(ab) == [a[0]] + StripMoney(a[1..] + b);
        assert StripMoney(a) == [a[0]] + StripMoney(a[1..]);
      }
    } else {
      assert a + b == b;
    }
  }

  /** A string without `$` and `,` is left unchanged. */
  lemma {:induction false} StripMoneyKeeps(s: string)
    requires forall i :: 0 <= i < |s| ==> s[i] != '$' && s[i] != ','
    ensures StripMoney(s) == s
    decreases |s|
  {
    if s != [] { StripMoneyKeeps(s[1..]); }
  }
}
