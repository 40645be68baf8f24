/**
 * The string operations the habit-name rules are built from: JavaScript's
 * `trim()` and `toLowerCase()`, and the normal form `trim().toLowerCase()`
 * under which habit names are compared.
 *
 * `toLowerCase()` is modelled on ASCII letters only.
 */
module Text {

  /** The characters `String.prototype.trim` removes: JavaScript white space and line terminators. */
  predicate IsSpace(c: char) {
    || c == '\t' || c == '\n' || c == '\U{000B}' || c == '\U{000C}' || c == '\r' || c == ' '
    || c == '\U{00A0}' || c == '\U{1680}' || ('\U{2000}' <= c <= '\U{200A}')
    || c == '\U{2028}' || c == '\U{2029}' || c == '\U{202F}' || c == '\U{205F}' || c == '\U{3000}'
    || c == '\U{FEFF}'
  }

  /** s with its leading white space removed. */
  function TrimStart(s: string): string {
    if s != [] && IsSpace(s[0]) then TrimStart(s[1..]) else s
  }

  /** s with its trailing white space removed. */
  function TrimEnd(s: string): string {
    if s != [] && IsSpace(s[|s| - 1]) then TrimEnd(s[..|s| - 1]) else s
  }

  /** TrimStart drops a prefix of white space and keeps a suffix that starts with none. */
  lemma {:induction false} TrimStartShape(s: string)
    ensures |TrimStart(s)| <= |s| && TrimStart(s) == s[|s| - |TrimStart(s)|..]
    ensures forall i :: 0 <= i < |s| - |TrimStart(s)| ==> IsSpace(s[i])
    ensures TrimStart(s) == [] || !IsSpace(TrimStart(s)[0])
  {
    if s != [] && IsSpace(s[0]) {
      TrimStartShape(s[1..]);
      assert forall i :: 1 <= i < |s| ==> s[1..][i - 1] == s[i];
    }
  }

  /** TrimEnd drops a suffix of white space and keeps a prefix that ends with none. */
  lemma {:induction false} TrimEndShape(s: string)
    ensures |TrimEnd(s)| <= |s| && TrimEnd(s) == s[..|TrimEnd(s)|]
    ensures forall i :: |TrimEnd(s)| <= i < |s| ==> IsSpace(s[i])
    ensures TrimEnd(s) == [] || !IsSpace(TrimEnd(s)[|TrimEnd(s)| - 1])
  {
    if s != [] && IsSpace(s[|s| - 1]) {
      TrimEndShape(s[..|s| - 1]);
    }
  }

  /** `s.trim()`. */
  function Trim(s: string): string {
    TrimEnd(TrimStart(s))
  }

  /** Neither end is white space. */
  predicate Trimmed(s: string) {
    s == [] || (!IsSpace(s[0]) && !IsSpace(s[|s| - 1]))
  }

  /** Trim yields a trimmed slice of its input, and leaves a trimmed string as it is. */
  lemma TrimProperties(s: string)
    ensures Trimmed(Trim(s))
    ensures exists i, j :: 0 <= i <= j <= |s| && Trim(s) == s[i..j]
    ensures Trimmed(s) ==> Trim(s) == s
  {
    var a := TrimStart(s);
    var t := TrimEnd(a);
    TrimStartShape(s);
    TrimEndShape(a);
    if t != [] {
      assert t[0] == a[0];
    }
    assert t == s[|s| - |a|..][..|t|];
    assert s[|s| - |a|..][..|t|] == s[|s| - |a|..|s| - |a| + |t|];
  }

  /** Trimming twice is trimming once. */
  lemma TrimIdempotent(s: string)
    ensures Trim(Trim(s)) == Trim(s)
  {
    TrimProperties(s);
    TrimProperties(Trim(s));
  }

  /** `toLowerCase()` of one character, on ASCII letters. */
  function LowerChar(c: char): char {
    if 'A' <= c <= 'Z' then (c as int + 32) as char else c
  }

  /** `s.toLowerCase()`: every character lowered, the length unchanged. */
  function Lower(s: string): (r: string)
    ensures |r| == |s|
    ensures forall i :: 0 <= i < |s| ==> r[i] == LowerChar(s[i])
  {
    if s == [] then [] else [LowerChar(s[0])] + Lower(s[1..])
  }

  /** Lowering leaves no ASCII capital, and lowering again changes nothing. */
  lemma LowerIdempotent(s: string)
    ensures forall i :: 0 <= i < |s| ==> !('A' <= Lower(s)[i] <= 'Z')
    ensures Lower(Lower(s)) == Lower(s)
  {
  }

  /** Lowering does not touch white space, so a trimmed string stays trimmed. */
  lemma LowerKeepsTrimmed(s: string)
    requires Trimmed(s)
    ensures Trimmed(Lower(s))
  {
  }

  /** The comparison key of a habit name: `name.trim().toLowerCase()`. */
  function NormalizeName(s: string): string {
    Lower(Trim(s))
  }

  /** Normalizing is idempotent: a normalized name is its own key. */
  lemma NormalizeIdempotent(s: string)
    ensures NormalizeName(NormalizeName(s)) == NormalizeName(s)
  {
    var t := Trim(s);
    TrimProperties(s);
    LowerKeepsTrimmed(t);
    TrimProperties(Lower(t));
    LowerIdempotent(t);
  }

  /** The set of comparison keys of a list of habit names. */
  function NameKeys(names: seq<string>): (keys: set<string>)
    ensures forall n :: n in names ==> NormalizeName(n) in keys
    ensures forall k :: k in keys ==> exists n :: n in names && k == NormalizeName(n)
  {
    set n | n in names :: NormalizeName(n)
  }

  /** Worked example: surrounding blanks and capitals do not matter. */
  lemma NormalizeExample()
    ensures NormalizeName(" A\n") == "a"
  {
    assert " A\n"[1..] == "A\n";
    assert TrimStart("A\n") == "A\n";
    assert "A\n"[..1] == "A";
    assert TrimEnd("A") == "A";
  }

  /** Worked example: inner blanks do matter. */
  lemma InnerSpaceExample()
    ensures NormalizeName("a b") != NormalizeName("ab")
  {
    assert TrimStart("a b") == "a b" && TrimEnd("a b") == "a b";
    assert TrimStart("ab") == "ab" && TrimEnd("ab") == "ab";
  }
}
