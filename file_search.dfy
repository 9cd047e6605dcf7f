/** `case_insensitive_file_search`: the path of the first entry of a
    directory listing that a regular expression finds, ignoring case.

    The lookup patterns of the batch are written in a small part of the
    regular-expression language: literal characters, the wildcard `.`
    and backslash escapes such as `\.`. A pattern of that kind matches a
    fixed number of characters, so `re.search` reduces to "some window of
    the name matches element by element". */
module FileSearch {
  import opened Results
  import opened Text

  datatype PatternElem = Literal(c: char) | AnyChar

  type Pattern = seq<PatternElem>

  /** The pattern a regular expression denotes, for expressions made of
      literal characters, the wildcard `.` and backslash escapes such as
      `\.`; every lookup pattern of the batch has that form. */
  function Compile(r: string): (p: Pattern)
    ensures |p| <= |r|
  {
    if r == [] then []
    else if r[0] == '\\' && |r| >= 2 then [Literal(r[1])] + Compile(r[2..])
    else if r[0] == '.' then [AnyChar] + Compile(r[1..])
    else [Literal(r[0])] + Compile(r[1..])
  }

  /** One pattern element against one character under `re.IGNORECASE` on a
      Python 2 byte string: literals compare after ASCII lower-casing, and
      `.` matches anything but a newline. */
  predicate ElemMatches(e: PatternElem, c: char)
  {
    match e
    case Literal(l) => LowerChar(l) == LowerChar(c)
    case AnyChar => c != '\n'
  }

  predicate MatchesAt(p: Pattern, s: string, i: nat)
  {
    i + |p| <= |s| && forall k :: 0 <= k < |p| ==> ElemMatches(p[k], s[i + k])
  }

  /** `re.search(pattern, s, re.IGNORECASE)` succeeds: trying the start
      positions from `from` onwards, one of them matches. */
  predicate SearchFrom(p: Pattern, s: string, from: nat)
    decreases |s| - from
  {
    from + |p| <= |s| && (MatchesAt(p, s, from) || SearchFrom(p, s, from + 1))
  }

  predicate Search(p: Pattern, s: string)
  {
    SearchFrom(p, s, 0)
  }

  /** Scanning the start positions finds a match exactly when the pattern
      matches the name at some position. */
  lemma {:induction false} SearchFromSpec(p: Pattern, s: string, from: nat)
    ensures SearchFrom(p, s, from) <==> exists i: nat :: from <= i && MatchesAt(p, s, i)
    decreases |s| - from
  {
    if from + |p| <= |s| {
      SearchFromSpec(p, s, from + 1);
      if exists i: nat :: from <= i && MatchesAt(p, s, i) {
        var i: nat :| from <= i && MatchesAt(p, s, i);
        assert i == from || from + 1 <= i;
      }
    }
  }

  lemma SearchSpec(p: Pattern, s: string)
    ensures Search(p, s) <==> exists i: nat :: MatchesAt(p, s, i)
  {
    SearchFromSpec(p, s, 0);
  }

  /** The pattern of a regular expression without wildcards or escapes:
      each character stands for itself. */
  function Literals(s: string): (p: Pattern)
    ensures |p| == |s| && forall i :: 0 <= i < |s| ==> p[i] == Literal(s[i])
  {
    seq(|s|, i requires 0 <= i < |s| => Literal(s[i]))
  }

  /** Characters that the compiler reads as themselves. */
  predicate Plain(s: string)
  {
    forall i :: 0 <= i < |s| ==> s[i] != '\\' && s[i] != '.'
  }

  /** A plain prefix compiles to its literals, whatever follows it. */
  lemma {:induction false} CompilePlainPrefix(a: string, b: string)
    requires Plain(a)
    ensures Compile(a + b) == Literals(a) + Compile(b)
  {
    if a != [] {
      var r := a + b;
      assert r[0] == a[0] && r[0] != '\\' && r[0] != '.';
      assert Compile(r) == [Literal(a[0])] + Compile(r[1..]);
      assert r[1..] == a[1..] + b;
      assert Plain(a[1..]) by {
        forall i | 0 <= i < |a[1..]| ensures a[1..][i] != '\\' && a[1..][i] != '.' {
          assert a[1..][i] == a[i + 1];
        }
      }
      CompilePlainPrefix(a[1..], b);
      assert Literals(a) == [Literal(a[0])] + Literals(a[1..]);
    } else {
      assert a + b == b;
    }
  }

  /** `re.IGNORECASE`: a pattern matches a name exactly where it matches
      the lower-cased name. */
  lemma MatchesIgnoringCase(p: Pattern, s: string, i: nat)
    ensures MatchesAt(p, s, i) <==> MatchesAt(p, Lower(s), i)
  {
    if i + |p| <= |s| {
      forall k | 0 <= k < |p|
        ensures ElemMatches(p[k], s[i + k]) <==> ElemMatches(p[k], Lower(s)[i + k])
      {
        assert Lower(s)[i + k] == LowerChar(s[i + k]);
      }
    }
  }

  /** So `re.search` finds the same names whatever their case. */
  lemma SearchIgnoringCase(p: Pattern, s: string)
    ensures Search(p, s) <==> Search(p, Lower(s))
  {
    SearchSpec(p, s);
    SearchSpec(p, Lower(s));
    forall i: nat
      ensures MatchesAt(p, s, i) <==> MatchesAt(p, Lower(s), i)
    {
      MatchesIgnoringCase(p, s, i);
    }
  }

  /** The position of the first name in `listing` that the pattern finds,
      if any. */
  function FirstMatch(p: Pattern, listing: seq<string>): (r: Option<nat>)
    ensures r.Some? ==> r.value < |listing| && Search(p, listing[r.value])
    ensures r.Some? ==> forall j :: 0 <= j < r.value ==> !Search(p, listing[j])
    ensures r.None? <==> forall j :: 0 <= j < |listing| ==> !Search(p, listing[j])
  {
    if listing == [] then None
    else if Search(p, listing[0]) then Some(0)
    else
      match FirstMatch(p, listing[1..])
      case None => None
      case Some(k) => Some(k + 1)
  }

  /** Some name of the listing is found by the pattern. */
  predicate Finds(regex: string, listing: seq<string>)
  {
    FirstMatch(Compile(regex), listing).Some?
  }

  /** The error the lookup raises: the pattern that found no file. */
  datatype NotFound = NotFound(pattern: string)

  /** `case_insensitive_file_search(directory, regex)` over the names that
      `os.listdir(directory)` returned, in that order. */
  function FindFile(directory: string, regex: string, listing: seq<string>): (r: Result<string, NotFound>)
    ensures r.Success? <==> Finds(regex, listing)
    ensures r.Failure? ==> r.error == NotFound(regex)
    ensures r.Success? ==> r.value == JoinPath(directory, listing[FirstMatch(Compile(regex), listing).value])
  {
    match FirstMatch(Compile(regex), listing)
    case None => Failure(NotFound(regex))
    case Some(i) => Success(JoinPath(directory, listing[i]))
  }
}
