/**
 * The few Python string operations the attribute flattener and the image
 * naming rely on: whitespace splitting, stripping a character, splitting on a
 * separator, decimal integer parsing and ASCII lower-casing.
 */
module Text {
  import opened Wrappers

  /** Characters Python's `str.split()` and `str.strip()` treat as white space (ASCII part). */
  predicate IsSpace(c: char) {
    c == ' ' || ('\t' <= c <= '\r') || (28 as char <= c <= 31 as char)
  }

  predicate IsDigit(c: char) { '0' <= c <= '9' }

  // ---------------------------------------------------------------------------
  // str.split() with no argument

  /** The length of the run of white space at the start of `s`. */
  function SpaceRun(s: string): (n: nat)
    ensures n <= |s|
    ensures forall i :: 0 <= i < n ==> IsSpace(s[i])
    ensures n < |s| ==> !IsSpace(s[n])
  {
    if s == [] || !IsSpace(s[0]) then 0 else 1 + SpaceRun(s[1..])
  }

  /** The length of the run of non-space characters at the start of `s`. */
  function WordRun(s: string): (n: nat)
    ensures n <= |s|
    ensures forall i :: 0 <= i < n ==> !IsSpace(s[i])
    ensures n < |s| ==> IsSpace(s[n])
  {
    if s == [] || IsSpace(s[0]) then 0 else 1 + WordRun(s[1..])
  }

  predicate IsWord(w: string) {
    w != [] && forall i :: 0 <= i < |w| ==> !IsSpace(w[i])
  }

  /** Python's `s.split()`: the maximal runs of non-space characters, in order. */
  function SplitWhitespace(s: string): (words: seq<string>)
    ensures forall i :: 0 <= i < |words| ==> IsWord(words[i])
    decreases |s|
  {
    var t := s[SpaceRun(s)..];
    assert t != [] ==> !IsSpace(t[0]);
    if t == [] then []
    else
      var n := WordRun(t);
      [t[..n]] + SplitWhitespace(t[n..])
  }

  /** The words joined by single spaces: the text an integer-array attribute carries. */
  function JoinSpaces(words: seq<string>): string {
    if words == [] then ""
    else if |words| == 1 then words[0]
    else words[0] + " " + JoinSpaces(words[1..])
  }

  lemma {:induction false} SplitJoinSpaces(words: seq<string>)
    requires forall i :: 0 <= i < |words| ==> IsWord(words[i])
    ensures SplitWhitespace(JoinSpaces(words)) == words
  {
    if words == [] {
    } else if |words| == 1 {
      SplitWordTail(words[0], "");
      assert words[0] + "" == words[0];
    } else {
      var rest := JoinSpaces(words[1..]);
      assert JoinSpaces(words) == words[0] + (" " + rest);
      SplitWordTail(words[0], " " + rest);
      SplitJoinSpaces(words[1..]);
      JoinStartsWithWord(words[1..]);
      SplitLeadingSpace(rest);
    }
  }

  /** Words joined by spaces do not start with a space. */
  lemma JoinStartsWithWord(words: seq<string>)
    requires words != []
    requires forall i :: 0 <= i < |words| ==> IsWord(words[i])
    ensures JoinSpaces(words) != [] && !IsSpace(JoinSpaces(words)[0])
  {
    if |words| > 1 {
      assert JoinSpaces(words)[0] == words[0][0];
    }
  }

  lemma SplitWordTail(w: string, tail: string)
    requires IsWord(w)
    requires tail == [] || IsSpace(tail[0])
    ensures SplitWhitespace(w + tail) == [w] + SplitWhitespace(tail)
  {
    var s := w + tail;
    assert SpaceRun(s) == 0 by { assert s[0] == w[0]; }
    assert s[0..] == s;
    WordRunOfWord(w, tail);
  }

  lemma {:induction false} WordRunOfWord(w: string, tail: string)
    requires forall i :: 0 <= i < |w| ==> !IsSpace(w[i])
    requires tail == [] || IsSpace(tail[0])
    ensures WordRun(w + tail) == |w|
    ensures (w + tail)[..|w|] == w && (w + tail)[|w|..] == tail
    decreases |w|
  {
    if w != [] {
      assert (w + tail)[1..] == w[1..] + tail;
      WordRunOfWord(w[1..], tail);
    }
  }

  lemma SplitLeadingSpace(rest: string)
    requires rest == [] || !IsSpace(rest[0])
    ensures SplitWhitespace(" " + rest) == SplitWhitespace(rest)
  {
    var s := " " + rest;
    assert s[1..] == rest;
    assert SpaceRun(s) == 1;
    assert s[SpaceRun(s)..] == rest[SpaceRun(rest)..];
  }

  // ---------------------------------------------------------------------------
  // str.strip(c) and str.split(sep)

  /** Python's `s.strip(c)` for one character: every leading and trailing `c` removed. */
  function StripChar(s: string, c: char): (r: string)
    ensures r == [] || (r[0] != c && r[|r| - 1] != c)
    ensures |r| <= |s|
    decreases |s|
  {
    if s == [] then s
    else if s[0] == c then StripChar(s[1..], c)
    else if s[|s| - 1] == c then StripChar(s[..|s| - 1], c)
    else s
  }

  predicate OccursAt<T(==)>(s: seq<T>, t: seq<T>, i: int) {
    0 <= i && i + |t| <= |s| && s[i..i + |t|] == t
  }

  /** Whether `t[k..]` occurs at offset `i + k` of `s`, compared element by element. */
  predicate MatchFrom<T(==)>(s: seq<T>, t: seq<T>, i: nat, k: nat)
    requires k <= |t|
    decreases |t| - k
  {
    if k == |t| then i + k <= |s|
    else i + k < |s| && s[i + k] == t[k] && MatchFrom(s, t, i, k + 1)
  }

  lemma {:induction false} MatchFromPointwise<T>(s: seq<T>, t: seq<T>, i: nat, k: nat)
    requires k <= |t|
    ensures MatchFrom(s, t, i, k) <==> i + |t| <= |s| && forall n :: k <= n < |t| ==> s[i + n] == t[n]
    decreases |t| - k
  {
    if k < |t| {
      MatchFromPointwise(s, t, i, k + 1);
    }
  }

  /** Matching from the first element is `OccursAt`. */
  lemma MatchOccurs<T>(s: seq<T>, t: seq<T>, i: nat)
    ensures MatchFrom(s, t, i, 0) <==> OccursAt(s, t, i)
  {
    MatchFromPointwise(s, t, i, 0);
    if OccursAt(s, t, i) {
      forall n | 0 <= n < |t| ensures s[i + n] == t[n] {
        assert s[i..i + |t|][n] == s[i + n];
      }
    } else if i + |t| <= |s| {
      var w := s[i..i + |t|];
      assert w != t;
      assert |w| == |t|;
      var n :| 0 <= n < |t| && w[n] != t[n];
      assert s[i + n] != t[n];
    }
  }

  /** Python's `s.find(t)` from offset `from`: the least position of an occurrence of `t`. */
  function FindFrom<T(==)>(s: seq<T>, t: seq<T>, from: nat): (r: Option<nat>)
    requires from <= |s|
    decreases |s| - from
  {
    if from + |t| > |s| then None
    else if MatchFrom(s, t, from, 0) then Some(from)
    else if from == |s| then None
    else FindFrom(s, t, from + 1)
  }

  lemma {:induction false} FindFromFacts<T>(s: seq<T>, t: seq<T>, from: nat)
    requires from <= |s|
    ensures var r := FindFrom(s, t, from);
      && (r.Some? ==> from <= r.value && OccursAt(s, t, r.value))
      && (r.Some? ==> forall j :: from <= j < r.value ==> !OccursAt(s, t, j))
      && (r.None? ==> forall j :: from <= j ==> !OccursAt(s, t, j))
    decreases |s| - from
  {
    MatchOccurs(s, t, from);
    if from + |t| <= |s| && !OccursAt(s, t, from) && from < |s| {
      FindFromFacts(s, t, from + 1);
    }
  }

  /** Python's `s.find(t)`, with None for -1. */
  function Find<T(==)>(s: seq<T>, t: seq<T>): (r: Option<nat>)
  {
    FindFrom(s, t, 0)
  }

  /** `Find` gives the first occurrence, and None exactly when there is none. */
  lemma FindFacts<T>(s: seq<T>, t: seq<T>)
    ensures var r := Find(s, t);
      && (r.Some? ==> OccursAt(s, t, r.value) && forall j :: j < r.value ==> !OccursAt(s, t, j))
      && (r.None? <==> forall j :: !OccursAt(s, t, j))
  {
    FindFromFacts(s, t, 0);
  }

  /** Python's `s.split(sep)` for a non-empty separator: cut at each occurrence, left to right. */
  function SplitOn(s: string, sep: string): (parts: seq<string>)
    requires sep != []
    ensures |parts| >= 1
    decreases |s|
  {
    FindFacts(s, sep);
    match Find(s, sep)
    case None => [s]
    case Some(i) => [s[..i]] + SplitOn(s[i + |sep|..], sep)
  }

  /** The separator between the items of a string-array attribute: quote, space, quote. */
  const ItemSeparator: string := "\" \""

  predicate Unquoted(x: string) { forall i :: 0 <= i < |x| ==> x[i] != '"' }

  /** `"a" "b" "c"`: the text a string-array attribute carries for items a, b, c. */
  function QuoteItems(items: seq<string>): string
    requires items != []
  {
    "\"" + JoinOn(items, ItemSeparator) + "\""
  }

  function JoinOn(items: seq<string>, sep: string): string {
    if items == [] then ""
    else if |items| == 1 then items[0]
    else items[0] + sep + JoinOn(items[1..], sep)
  }

  lemma {:induction false} SplitJoinOn(items: seq<string>)
    requires items != []
    requires forall i :: 0 <= i < |items| ==> Unquoted(items[i])
    ensures SplitOn(JoinOn(items, ItemSeparator), ItemSeparator) == items
  {
    var s := JoinOn(items, ItemSeparator);
    var x := items[0];
    if |items| == 1 {
      forall j ensures !OccursAt(s, ItemSeparator, j) {
        if 0 <= j && j + 3 <= |s| {
          assert s[j..j + 3][0] == s[j] != '"';
        }
      }
      FindFacts(s, ItemSeparator);
    } else {
      var rest := JoinOn(items[1..], ItemSeparator);
      assert s == x + ItemSeparator + rest;
      assert OccursAt(s, ItemSeparator, |x|) by {
        assert s[|x|..|x| + 3] == ItemSeparator;
      }
      forall j | j < |x| ensures !OccursAt(s, ItemSeparator, j) {
        if 0 <= j {
          assert s[j..j + 3][0] == s[j] == x[j] != '"';
        }
      }
      FindFacts(s, ItemSeparator);
      assert Find(s, ItemSeparator) == Some(|x|);
      assert s[..|x|] == x;
      assert s[|x| + 3..] == rest;
      SplitJoinOn(items[1..]);
    }
  }

  lemma {:induction false} StripQuotesOfQuoted(items: seq<string>)
    requires items != []
    requires forall i :: 0 <= i < |items| ==> Unquoted(items[i])
    requires items[0] != [] && items[|items| - 1] != []
    ensures StripChar(QuoteItems(items), '"') == JoinOn(items, ItemSeparator)
  {
    var body := JoinOn(items, ItemSeparator);
    JoinOnFirst(items);
    JoinOnLast(items);
    var q := QuoteItems(items);
    assert StripChar(body, '"') == body;
    assert q[1..] == body + "\"";
    assert (body + "\"")[..|body|] == body;
    assert StripChar(q[1..], '"') == StripChar(body, '"');
  }

  lemma JoinOnFirst(items: seq<string>)
    requires items != [] && items[0] != []
    ensures var s := JoinOn(items, ItemSeparator); s != [] && s[0] == items[0][0]
  {
    if |items| > 1 {
      assert JoinOn(items, ItemSeparator) == items[0] + (ItemSeparator + JoinOn(items[1..], ItemSeparator));
    }
  }

  lemma {:induction false} JoinOnLast(items: seq<string>)
    requires items != [] && items[|items| - 1] != []
    ensures var s := JoinOn(items, ItemSeparator); var w := items[|items| - 1];
      s != [] && s[|s| - 1] == w[|w| - 1]
  {
    if |items| > 1 {
      var rest := JoinOn(items[1..], ItemSeparator);
      assert items[1..][|items| - 2] == items[|items| - 1];
      JoinOnLast(items[1..]);
      var s := JoinOn(items, ItemSeparator);
      assert s == (items[0] + ItemSeparator) + rest;
    }
  }

  /** Reading back a string-array attribute: `text.strip('"').split('" "')` recovers the items. */
  lemma StringArrayRoundTrip(items: seq<string>)
    requires items != []
    requires forall i :: 0 <= i < |items| ==> Unquoted(items[i])
    requires items[0] != [] && items[|items| - 1] != []
    ensures SplitOn(StripChar(QuoteItems(items), '"'), ItemSeparator) == items
  {
    StripQuotesOfQuoted(items);
    SplitJoinOn(items);
  }

  // ---------------------------------------------------------------------------
  // int(s)

  function DigitValue(c: char): (d: nat)
    requires IsDigit(c)
    ensures d < 10
  {
    (c as int - '0' as int)
  }

  predicate AllDigits(s: string) { forall i :: 0 <= i < |s| ==> IsDigit(s[i]) }

  /** The value of a string of decimal digits. */
  function DecimalValue(s: string): nat
    requires AllDigits(s)
  {
    if s == [] then 0 else DecimalValue(s[..|s| - 1]) * 10 + DigitValue(s[|s| - 1])
  }

  /** The shortest decimal representation of `n`. */
  function Decimal(n: nat): (s: string)
    ensures s != [] && AllDigits(s)
  {
    if n < 10 then [('0' as int + n) as char]
    else Decimal(n / 10) + [('0' as int + n % 10) as char]
  }

  lemma {:induction false} DecimalValueOfDecimal(n: nat)
    ensures DecimalValue(Decimal(n)) == n
  {
    if n >= 10 {
      var s := Decimal(n);
      assert s[..|s| - 1] == Decimal(n / 10);
      DecimalValueOfDecimal(n / 10);
    }
  }

  /** `s` with its leading and trailing white space removed, as `str.strip()` does. */
  function StripSpace(s: string): (r: string)
    ensures r == [] || (!IsSpace(r[0]) && !IsSpace(r[|r| - 1]))
    decreases |s|
  {
    if s == [] then s
    else if IsSpace(s[0]) then StripSpace(s[1..])
    else if IsSpace(s[|s| - 1]) then StripSpace(s[..|s| - 1])
    else s
  }

  /** Python's `int(s)` on a string: optional surrounding space, optional sign, decimal digits. */
  function ParseInt(s: string): (r: Option<int>)
  {
    var t := StripSpace(s);
    if t == [] then None
    else if t[0] == '-' || t[0] == '+' then
      var digits := t[1..];
      if digits != [] && AllDigits(digits) then
        var v: int := DecimalValue(digits);
        Some(if t[0] == '-' then -v else v)
      else None
    else if AllDigits(t) then Some(DecimalValue(t))
    else None
  }

  /** Python's `str(n)` for an integer. */
  function ShowInt(n: int): string {
    if n < 0 then "-" + Decimal(-n) else Decimal(n)
  }

  lemma ParseShowInt(n: int)
    ensures ParseInt(ShowInt(n)) == Some(n)
  {
    var s := ShowInt(n);
    var d := Decimal(if n < 0 then -n else n);
    DecimalValueOfDecimal(if n < 0 then -n else n);
    assert StripSpace(d) == d by { assert !IsSpace(d[0]) && !IsSpace(d[|d| - 1]); }
    if n < 0 {
      assert StripSpace(s) == s by { assert s[|s| - 1] == d[|d| - 1]; }
      assert s[1..] == d;
    }
  }

  /** `[int(v) for v in words]`, failing at the first word that is not an integer. */
  function ParseInts(words: seq<string>): (r: Option<seq<int>>)
    ensures r.Some? ==> |r.value| == |words|
  {
    if words == [] then Some([])
    else match ParseInt(words[0])
      case None => None
      case Some(n) =>
        match ParseInts(words[1..])
        case None => None
        case Some(ns) => Some([n] + ns)
  }

  function ShowInts(ns: seq<int>): (words: seq<string>)
    ensures |words| == |ns|
    ensures forall i :: 0 <= i < |ns| ==> words[i] == ShowInt(ns[i])
  {
    if ns == [] then [] else [ShowInt(ns[0])] + ShowInts(ns[1..])
  }

  lemma {:induction false} ShowIntIsWord(n: int)
    ensures IsWord(ShowInt(n))
  {
    var d := Decimal(if n < 0 then -n else n);
    forall i | 0 <= i < |d| ensures !IsSpace(d[i]) { assert IsDigit(d[i]); }
  }

  lemma ParseIntsCons(words: seq<string>, n: int, ns: seq<int>)
    requires words != []
    requires ParseInt(words[0]) == Some(n) && ParseInts(words[1..]) == Some(ns)
    ensures ParseInts(words) == Some([n] + ns)
  {
  }

  /** Reading back an integer-array attribute: `[int(v) for v in text.split()]` recovers the integers. */
  lemma {:induction false} IntArrayRoundTrip(ns: seq<int>)
    ensures ParseInts(SplitWhitespace(JoinSpaces(ShowInts(ns)))) == Some(ns)
  {
    var words := ShowInts(ns);
    forall i | 0 <= i < |words| ensures IsWord(words[i]) { ShowIntIsWord(ns[i]); }
    SplitJoinSpaces(words);
    ParseShowInts(ns);
  }

  lemma {:induction false} ParseShowInts(ns: seq<int>)
    ensures ParseInts(ShowInts(ns)) == Some(ns)
  {
    if ns != [] {
      var words := ShowInts(ns);
      assert words[1..] == ShowInts(ns[1..]);
      ParseShowInt(ns[0]);
      ParseShowInts(ns[1..]);
      ParseIntsCons(words, ns[0], ns[1..]);
      assert ns == [ns[0]] + ns[1..];
    }
  }

  // ---------------------------------------------------------------------------
  // ASCII case and suffixes

  function LowerChar(c: char): char {
    if 'A' <= c <= 'Z' then (c as int + 32) as char else c
  }

  /** `s.lower()` restricted to ASCII letters. */
  function Lower(s: string): (r: string)
    ensures |r| == |s|
    ensures forall i :: 0 <= i < |s| ==> r[i] == LowerChar(s[i])
  {
    if s == [] then [] else [LowerChar(s[0])] + Lower(s[1..])
  }

  predicate EndsWith(s: string, suffix: string) {
    |suffix| <= |s| && s[|s| - |suffix|..] == suffix
  }
}
