/** A value that may be missing: Rust's Option, an SQL column that may be NULL. */
module Options {
  datatype Option<+T> = None | Some(value: T)
}

/** Strings as the service, the importer and MySQL handle them. */
module Text {
  import opened Options

  /** The four trimming operations in use. */
  datatype Strip =
    | Spaces        // SQL TRIM
    | Whitespace    // Rust str::trim
    | PyWhitespace  // Python str.strip
    | LabelEdge     // trim_status_label
    | Underscores   // Python str.strip("_")

  /** Rust's char::is_whitespace: the Unicode property White_Space. */
  predicate IsWhitespace(c: char) {
    var n := c as int;
    || 9 <= n <= 13 || n == 32 || n == 0x85 || n == 0xA0 || n == 0x1680 || 0x2000 <= n <= 0x200A
    || n == 0x2028 || n == 0x2029 || n == 0x202F || n == 0x205F || n == 0x3000
  }

  /** The 25 characters of White_Space. */
  lemma WhitespaceIs(c: char)
    ensures IsWhitespace(c) <==> c as int in {
      0x0009, 0x000A, 0x000B, 0x000C, 0x000D, 0x0020, 0x0085, 0x00A0, 0x1680, 0x2000, 0x2001, 0x2002, 0x2003, 0x2004,
      0x2005, 0x2006, 0x2007, 0x2008, 0x2009, 0x200A, 0x2028, 0x2029, 0x202F, 0x205F, 0x3000}
  {
  }

  predicate Strips(kind: Strip, c: char) {
    match kind
    case Spaces => c == ' '
    case Whitespace => IsWhitespace(c)
    case PyWhitespace => IsWhitespace(c) || 0x1C <= c as int <= 0x1F
    case Underscores => c == '_'
    case LabelEdge => IsWhitespace(c) || c == '；' || c == ';' || c == '，' || c == ',' || c == '。'
  }

  /** Python strips four control characters more. */
  lemma PyWhitespaceIs(c: char)
    ensures Strips(PyWhitespace, c) <==> IsWhitespace(c) || c as int in {0x1C, 0x1D, 0x1E, 0x1F}
  {
    hide IsWhitespace;
  }

  function Start(kind: Strip, s: string, i: nat): (r: nat)
    requires i <= |s|
    ensures i <= r <= |s|
    ensures forall k :: i <= k < r ==> Strips(kind, s[k])
    ensures r < |s| ==> !Strips(kind, s[r])
    decreases |s| - i
  {
    if i < |s| && Strips(kind, s[i]) then Start(kind, s, i + 1) else i
  }

  function End(kind: Strip, s: string, lo: nat, j: nat): (r: nat)
    requires lo <= j <= |s|
    ensures lo <= r <= j
    ensures forall k :: r <= k < j ==> Strips(kind, s[k])
    ensures lo < r ==> !Strips(kind, s[r - 1])
    decreases j
  {
    if lo < j && Strips(kind, s[j - 1]) then End(kind, s, lo, j - 1) else j
  }

  function Trim(kind: Strip, s: string): (r: string)
    ensures |r| <= |s|
  {
    var i := Start(kind, s, 0);
    s[i..End(kind, s, i, |s|)]
  }

  /** A string whose ends the trimming leaves alone. */
  predicate Trimmed(kind: Strip, s: string) {
    s == "" || (!Strips(kind, s[0]) && !Strips(kind, s[|s| - 1]))
  }

  lemma TrimIsTrimmed(kind: Strip, s: string)
    ensures Trimmed(kind, Trim(kind, s))
  {
  }

  /** Trimming removes exactly the strippable margin around a trimmed core. */
  lemma TrimMargins(kind: Strip, left: string, core: string, right: string)
    requires forall c :: c in left || c in right ==> Strips(kind, c)
    requires Trimmed(kind, core)
    ensures Trim(kind, left + core + right) == core
  {
    var s := left + core + right;
    forall k | 0 <= k < |left| ensures Strips(kind, s[k]) {
      assert left[k] in left;
    }
    forall k | |left| + |core| <= k < |s| ensures Strips(kind, s[k]) {
      assert right[k - |left| - |core|] in right;
    }
    var i := Start(kind, s, 0);
    var j := End(kind, s, i, |s|);
    if core != "" {
      assert s[|left|] == core[0] && s[|left| + |core| - 1] == core[|core| - 1];
      assert i == |left| && j == |left| + |core|;
      assert s[|left|..|left| + |core|] == core;
    }
  }

  /** What trimming takes off. */
  lemma TrimParts(kind: Strip, s: string) returns (left: string, right: string)
    ensures s == left + Trim(kind, s) + right
    ensures forall c :: c in left || c in right ==> Strips(kind, c)
  {
    hide Strips;
    var i := Start(kind, s, 0);
    var j := End(kind, s, i, |s|);
    left, right := s[..i], s[j..];
  }

  /** Python and Rust trim a text alike exactly when Python has nothing more to strip. */
  lemma TrimsAgree(s: string)
    ensures Trim(PyWhitespace, s) == Trim(Whitespace, s) <==> Trimmed(PyWhitespace, Trim(Whitespace, s))
  {
    hide IsWhitespace, Trim, Trimmed;
    TrimIsTrimmed(PyWhitespace, s);
    var left, right := TrimParts(Whitespace, s);
    if Trimmed(PyWhitespace, Trim(Whitespace, s)) {
      TrimMargins(PyWhitespace, left, Trim(Whitespace, s), right);
    }
  }

  lemma TrimOfTrimmed(kind: Strip, s: string)
    requires Trimmed(kind, s)
    ensures Trim(kind, s) == s
  {
    TrimMargins(kind, "", s, "");
    assert "" + s + "" == s;
  }

  lemma TrimEmpty(kind: Strip, s: string)
    ensures Trim(kind, s) == "" <==> forall c :: c in s ==> Strips(kind, c)
  {
    var i := Start(kind, s, 0);
    if forall c :: c in s ==> Strips(kind, c) {
      if i < |s| { assert s[i] in s; }
    } else {
      var k :| 0 <= k < |s| && !Strips(kind, s[k]);
      assert i <= k < End(kind, s, i, |s|);
    }
  }

  /** NULLIF(TRIM(x), ''). */
  function Filled(x: Option<string>): Option<string> {
    if x.Some? && Trim(Spaces, x.value) != "" then Some(Trim(Spaces, x.value)) else None
  }

  /** COALESCE(x, other). */
  function OrElse(x: Option<string>, other: string): string {
    if x.Some? then x.value else other
  }

  predicate IsSpaces(s: string) {
    forall c :: c in s ==> c == ' '
  }

  /** The column holds the text `t` between spaces. */
  ghost predicate Says(x: Option<string>, t: string) {
    && t != "" && t[0] != ' ' && t[|t| - 1] != ' '
    && exists left, right :: IsSpaces(left) && IsSpaces(right) && x == Some(left + t + right)
  }

  /** The column is NULL, empty or holds spaces only. */
  predicate IsSilent(x: Option<string>) {
    x.None? || IsSpaces(x.value)
  }

  /** NULLIF(TRIM(x), '') is the text of the column, NULL without one. */
  lemma FilledIs(x: Option<string>)
    ensures match Filled(x)
      case Some(t) => Says(x, t) && !IsSilent(x) && forall u :: Says(x, u) ==> u == t
      case None => IsSilent(x) && forall u :: !Says(x, u)
  {
    hide Trim;
    if x.Some? {
      TrimEmpty(Spaces, x.value);
      forall u | Says(x, u) ensures u == Trim(Spaces, x.value) {
        var left, right :| IsSpaces(left) && IsSpaces(right) && x == Some(left + u + right);
        TrimMargins(Spaces, left, u, right);
      }
      if Trim(Spaces, x.value) != "" {
        TrimIsTrimmed(Spaces, x.value);
        var left, right := TrimParts(Spaces, x.value);
        assert IsSpaces(left) && IsSpaces(right);
      }
    }
  }

  predicate IsBlank(s: string) {
    forall c :: c in s ==> IsWhitespace(c)
  }

  /** `s` is the text `t` between whitespace. */
  ghost predicate Encloses(s: string, t: string) {
    && t != "" && !IsWhitespace(t[0]) && !IsWhitespace(t[|t| - 1])
    && exists left, right :: IsBlank(left) && IsBlank(right) && s == left + t + right
  }

  /** Rust's trimming takes out the enclosed text, and leaves nothing of a blank one. */
  lemma TrimIs(s: string)
    ensures IsBlank(s) <==> Trim(Whitespace, s) == ""
    ensures forall t :: Encloses(s, t) <==> t != "" && t == Trim(Whitespace, s)
  {
    hide IsWhitespace, Trim;
    TrimEmpty(Whitespace, s);
    forall t | Encloses(s, t) ensures t == Trim(Whitespace, s) {
      var left, right :| IsBlank(left) && IsBlank(right) && s == left + t + right;
      TrimMargins(Whitespace, left, t, right);
    }
    TrimIsTrimmed(Whitespace, s);
    var left, right := TrimParts(Whitespace, s);
    assert IsBlank(left) && IsBlank(right);
  }
}
