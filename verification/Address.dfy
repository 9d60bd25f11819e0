/** Page ids: their grammar, their place on disk, and the unique ids made from them. */
module Address {
  import opened Model
  import opened IndexPages

  // ---- characters ----

  predicate IsAlnum(c: char)
  {
    'A' <= c <= 'Z' || 'a' <= c <= 'z' || '0' <= c <= '9'
  }

  predicate IsSlugChar(c: char)
  {
    IsAlnum(c) || c == '_' || c == '-'
  }

  function LowerChar(c: char): char
  {
    if 'A' <= c <= 'Z' then c - 'A' + 'a' else c
  }

  function Lower(s: string): string
  {
    seq(|s|, i requires 0 <= i < |s| => LowerChar(s[i]))
  }

  // ---- searching and splitting ----

  /** The first index of `c`, or the length. */
  function IndexOf(s: string, c: char): (i: nat)
    ensures i <= |s|
    ensures i < |s| ==> s[i] == c
    ensures c !in s[..i]
  {
    if s == "" || s[0] == c then 0
    else
      var i := IndexOf(s[1..], c);
      assert s[..i + 1] == [s[0]] + s[1..][..i];
      i + 1
  }

  lemma {:induction false} IndexOfIn(a: string, c: char, b: string)
    requires c !in a
    ensures IndexOf(a + [c] + b, c) == |a|
    decreases |a|
  {
    if a != "" {
      assert (a + [c] + b)[1..] == a[1..] + [c] + b;
      IndexOfIn(a[1..], c, b);
    }
  }

  lemma IndexOfAbsent(s: string, c: char)
    ensures IndexOf(s, c) == |s| <==> c !in s
  {
    assert s[..|s|] == s;
  }

  function Split(s: string, c: char): (parts: seq<string>)
    ensures |parts| > 0
    decreases |s|
  {
    var i := IndexOf(s, c);
    if i == |s| then [s] else [s[..i]] + Split(s[i + 1..], c)
  }

  // ---- the id grammar ----

  /** Python's `$` also matches before one final newline. */
  function Chomp(s: string): string
  {
    if s != "" && s[|s| - 1] == '\n' then s[..|s| - 1] else s
  }

  predicate SlugShape(s: string)
  {
    1 <= |s| <= 254 && IsAlnum(s[0]) && forall c | c in s :: IsSlugChar(c)
  }

  predicate ComponentShape(s: string)
  {
    1 <= |s| && IsAlnum(s[0]) && forall c | c in s :: IsSlugChar(c) || c == '.'
  }

  /** Windows device names, in lower case. */
  predicate IsReserved(s: string)
  {
    s == "con" || s == "prn" || s == "aux" || s == "nul"
    || (|s| == 4 && (s[..3] == "com" || s[..3] == "lpt") && '1' <= s[3] <= '9')
  }

  predicate ValidSlugId(id: string)
  {
    SlugShape(Chomp(id)) && !IsReserved(Lower(id))
  }

  /** The index of the first `::`, or the length. */
  function FindSeparator(s: string): (i: nat)
    ensures i <= |s|
    ensures i < |s| ==> i + 1 < |s| && s[i] == ':' && s[i + 1] == ':'
  {
    if |s| < 2 then |s|
    else if s[0] == ':' && s[1] == ':' then 0
    else 1 + FindSeparator(s[1..])
  }

  predicate HasSeparator(s: string)
  {
    FindSeparator(s) < |s|
  }

  /** Occurrences of `::` that do not overlap, left to right. */
  function CountSeparators(s: string): nat
  {
    if |s| < 2 then 0
    else if s[0] == ':' && s[1] == ':' then 1 + CountSeparators(s[2..])
    else CountSeparators(s[1..])
  }

  predicate ValidComponent(comp: string)
  {
    ComponentShape(Chomp(comp)) && !IsReserved(Lower(comp[..IndexOf(comp, '.')]))
  }

  predicate ValidSectionId(id: string)
  {
    var i := FindSeparator(id);
    |id| <= 254 && i < |id| && CountSeparators(id) == 1 && ValidSlugId(id[..i]) &&
    forall comp | comp in Split(id[i + 2..], '/') :: ValidComponent(comp)
  }

  predicate ValidId(id: string)
  {
    if HasSeparator(id) then ValidSectionId(id) else ValidSlugId(id)
  }

  // ---- the place on disk ----

  function Subdir(kind: Kind): string
    requires !kind.Index?
  {
    match kind
    case Entity => "entities"
    case Concept => "concepts"
    case Source => "sources"
    case Synthesis => "syntheses"
  }

  /** `::` becomes `/`. */
  function Slashed(s: string): string
  {
    if |s| < 2 then s
    else if s[0] == ':' && s[1] == ':' then ['/'] + Slashed(s[2..])
    else [s[0]] + Slashed(s[1..])
  }

  function TargetPath(kind: Kind, id: string): string
    requires !kind.Index?
  {
    "pages/" + Subdir(kind) + "/" + Slashed(id) + ".md"
  }

  function KindOf(subdir: string): Option<Kind>
  {
    if subdir == "entities" then Some(Entity)
    else if subdir == "concepts" then Some(Concept)
    else if subdir == "sources" then Some(Source)
    else if subdir == "syntheses" then Some(Synthesis)
    else None
  }

  function Unslashed(rel: string): string
  {
    var i := IndexOf(rel, '/');
    if i == |rel| then rel else rel[..i] + [':', ':'] + rel[i + 1..]
  }

  /** The page a path is for, read back from the path alone. */
  function OfPath(path: string): Option<(Kind, string)>
  {
    if |path| < 6 || path[..6] != "pages/" then None
    else
      var rest := path[6..];
      var i := IndexOf(rest, '/');
      if |rest| - i < 4 || rest[|rest| - 3..] != ".md" then None
      else
        match KindOf(rest[..i])
        case None => None
        case Some(kind) => Some((kind, Unslashed(rest[i + 1..|rest| - 3])))
  }

  // ---- separators in valid ids ----

  lemma SlugHasNo(id: string, c: char)
    requires ValidSlugId(id) && !IsSlugChar(c) && c != '\n'
    ensures c !in id
  {
    if id[|id| - 1] == '\n' { assert id == id[..|id| - 1] + ['\n']; }
  }

  lemma {:induction false} NoSeparator(s: string)
    requires ':' !in s
    ensures FindSeparator(s) == |s| && CountSeparators(s) == 0 && Slashed(s) == s
    decreases |s|
  {
    if |s| >= 2 {
      assert s[0] in s;
      NoSeparator(s[1..]);
      assert s == [s[0]] + s[1..];
    }
  }

  lemma {:induction false} SplitHasNo(s: string, c: char, d: char)
    requires c != d && forall part | part in Split(s, d) :: c !in part
    ensures c !in s
    decreases |s|
  {
    var i := IndexOf(s, d);
    if i < |s| {
      var parts := Split(s, d);
      assert parts == [s[..i]] + Split(s[i + 1..], d);
      assert parts[0] in parts;
      assert forall part | part in Split(s[i + 1..], d) :: part in parts;
      SplitHasNo(s[i + 1..], c, d);
      assert s == s[..i] + [d] + s[i + 1..];
    } else {
      assert Split(s, d)[0] in Split(s, d);
    }
  }

  lemma ComponentHasNo(comp: string, c: char)
    requires ValidComponent(comp) && !IsSlugChar(c) && c != '\n' && c != '.'
    ensures c !in comp
  {
    if comp[|comp| - 1] == '\n' { assert comp == comp[..|comp| - 1] + ['\n']; }
  }

  lemma PlainHead(c: char, rest: string)
    requires c != ':'
    ensures FindSeparator([c] + rest) == 1 + FindSeparator(rest) && Slashed([c] + rest) == [c] + Slashed(rest)
  {
    assert ([c] + rest)[1..] == rest;
  }

  lemma Regrouped(c: char, a: string, m: string, b: string)
    ensures [c] + a + m + b == [c] + (a + m + b)
  {}

  lemma {:induction false} SeparatorIn(a: string, b: string)
    requires ':' !in a && ':' !in b
    ensures FindSeparator(a + [':', ':'] + b) == |a| && Slashed(a + [':', ':'] + b) == a + ['/'] + b
    decreases |a|
  {
    if a == "" {
      assert a + [':', ':'] + b == [':', ':'] + b;
      assert ([':', ':'] + b)[2..] == b;
      NoSeparator(b);
    } else {
      var c, rest := a[0], a[1..];
      assert a == [c] + rest && c in a;
      forall x | x in rest ensures x in a {}
      SeparatorIn(rest, b);
      PlainHead(c, rest + [':', ':'] + b);
      Regrouped(c, rest, [':', ':'], b);
      Regrouped(c, rest, ['/'], b);
    }
  }

  /** A section id is a source slug and a relative path without colons. */
  lemma SectionParts(id: string)
    requires ValidSectionId(id)
    ensures var i := FindSeparator(id);
            && '/' !in id[..i] && ':' !in id[..i] && ':' !in id[i + 2..]
            && Slashed(id) == id[..i] + ['/'] + id[i + 2..] && id == id[..i] + [':', ':'] + id[i + 2..]
  {
    var i := FindSeparator(id);
    SlugHasNo(id[..i], '/');
    SlugHasNo(id[..i], ':');
    var rel := id[i + 2..];
    forall comp | comp in Split(rel, '/') ensures ':' !in comp {
      ComponentHasNo(comp, ':');
    }
    SplitHasNo(rel, ':', '/');
    assert id == id[..i] + [':', ':'] + rel;
    SeparatorIn(id[..i], rel);
  }

  lemma UnslashedSection(a: string, b: string)
    requires '/' !in a
    ensures Unslashed(a + ['/'] + b) == a + [':', ':'] + b
  {
    IndexOfIn(a, '/', b);
    var rel := a + ['/'] + b;
    assert rel[..|a|] == a && rel[|a| + 1..] == b;
  }

  lemma UnslashedSlashed(id: string)
    requires ValidId(id)
    ensures Unslashed(Slashed(id)) == id
  {
    if HasSeparator(id) {
      SectionParts(id);
      var i := FindSeparator(id);
      UnslashedSection(id[..i], id[i + 2..]);
    } else {
      SlugHasNo(id, ':');
      NoSeparator(id);
      SlugHasNo(id, '/');
      IndexOfAbsent(id, '/');
    }
  }

  lemma SubdirIsAName(kind: Kind)
    requires !kind.Index?
    ensures '/' !in Subdir(kind) && KindOf(Subdir(kind)) == Some(kind)
  {
    assert Subdir(kind)[0] == 'e' || Subdir(kind)[0] == 'c' || Subdir(kind)[1] == 'o' || Subdir(kind)[1] == 'y';
  }

  /** What `OfPath` makes of a path built from a directory and a relative path. */
  lemma OfPathOf(dir: string, rel: string)
    requires '/' !in dir && |rel| > 0
    ensures OfPath("pages/" + (dir + ['/'] + (rel + ".md")))
         == match KindOf(dir) case None => None case Some(kind) => Some((kind, Unslashed(rel)))
  {
    var rest := dir + ['/'] + (rel + ".md");
    var path := "pages/" + rest;
    assert path[..6] == "pages/" && path[6..] == rest;
    IndexOfIn(dir, '/', rel + ".md");
    assert rest[..|dir|] == dir && rest[|rest| - 3..] == ".md" && rest[|dir| + 1..|rest| - 3] == rel;
  }

  lemma Joined(dir: string, rel: string)
    ensures "pages/" + dir + "/" + rel + ".md" == "pages/" + (dir + ['/'] + (rel + ".md"))
  {
    var head, tail := "pages/", ".md";
    assert head + dir + "/" + rel + tail == head + (dir + ['/'] + (rel + tail));
  }

  lemma SlashedIsNotEmpty(id: string)
    requires ValidId(id)
    ensures |Slashed(id)| > 0
  {
    UnslashedSlashed(id);
  }

  /** The path of a page tells its kind and its id. */
  lemma PathRoundTrip(kind: Kind, id: string)
    requires !kind.Index? && ValidId(id)
    ensures OfPath(TargetPath(kind, id)) == Some((kind, id))
  {
    SubdirIsAName(kind);
    SlashedIsNotEmpty(id);
    Joined(Subdir(kind), Slashed(id));
    OfPathOf(Subdir(kind), Slashed(id));
    UnslashedSlashed(id);
  }

  /** Two pages never share a path. */
  lemma PathsAreInjective(kind: Kind, id: string, kind': Kind, id': string)
    requires !kind.Index? && ValidId(id) && !kind'.Index? && ValidId(id')
    requires TargetPath(kind, id) == TargetPath(kind', id')
    ensures kind == kind' && id == id'
  {
    PathRoundTrip(kind, id);
    PathRoundTrip(kind', id');
  }

  lemma FirstOfDirectory(kind: Kind, rest: string)
    requires !kind.Index?
    ensures |"pages/" + (Subdir(kind) + rest)| > 6
    ensures ("pages/" + (Subdir(kind) + rest))[6] == Subdir(kind)[0] && Subdir(kind)[0] in "ecs"
  {}

  /** No page is written where an index page lives. */
  lemma PathIsNoSlot(kind: Kind, id: string)
    requires !kind.Index?
    ensures !IsSlotPath(TargetPath(kind, id))
  {
    Joined(Subdir(kind), Slashed(id));
    FirstOfDirectory(kind, ['/'] + (Slashed(id) + ".md"));
    assert Subdir(kind) + (['/'] + (Slashed(id) + ".md")) == Subdir(kind) + ['/'] + (Slashed(id) + ".md");
    assert GLOSSARY.path[6] == 'g' && DOMAINS.path[6] == 'd';
  }

  // ---- no path leaves its subdirectory ----

  lemma {:induction false} SplitWithSuffix(s: string, c: char, suffix: string, part: string)
    requires c !in suffix && part in Split(s + suffix, c)
    ensures part in Split(s, c) || exists p :: p in Split(s, c) && part == p + suffix
    decreases |s|
  {
    var i := IndexOf(s, c);
    if i == |s| {
      IndexOfAbsent(s, c);
      assert c !in s + suffix;
      IndexOfAbsent(s + suffix, c);
      assert part == s + suffix;
      assert Split(s, c)[0] == s && s in Split(s, c);
    } else {
      assert s + suffix == s[..i] + [c] + (s[i + 1..] + suffix);
      IndexOfIn(s[..i], c, s[i + 1..] + suffix);
      assert (s + suffix)[i + 1..] == s[i + 1..] + suffix && (s + suffix)[..i] == s[..i];
      var head, tail := [s[..i]], Split(s[i + 1..], c);
      assert Split(s, c) == head + tail;
      assert forall p | p in head + tail :: p in head || p in tail;
      assert forall p | p in tail :: p in head + tail;
      if part in Split(s[i + 1..] + suffix, c) {
        SplitWithSuffix(s[i + 1..], c, suffix, part);
      } else {
        assert part == s[..i] && head[0] == part && part in head && part in head + tail;
      }
    }
  }

  lemma SlugStart(id: string)
    requires ValidSlugId(id)
    ensures id != "" && IsAlnum(id[0])
  {}

  lemma SectionComponents(id: string, part: string)
    requires ValidSectionId(id) && part in Split(Slashed(id), '/')
    ensures part != "" && IsAlnum(part[0])
  {
    SectionParts(id);
    var i := FindSeparator(id);
    var source, rel := id[..i], id[i + 2..];
    assert Slashed(id) == source + ['/'] + rel;
    IndexOfIn(source, '/', rel);
    assert Slashed(id)[..i] == source && Slashed(id)[i + 1..] == rel;
    assert Split(Slashed(id), '/') == [source] + Split(rel, '/');
    if part in Split(rel, '/') {
      assert ValidComponent(part);
    } else {
      assert part == source;
      SlugStart(source);
    }
  }

  lemma IdComponents(id: string, part: string)
    requires ValidId(id) && part in Split(Slashed(id), '/')
    ensures part != "" && IsAlnum(part[0])
  {
    if HasSeparator(id) {
      SectionComponents(id, part);
    } else {
      SlugHasNo(id, ':');
      NoSeparator(id);
      SlugHasNo(id, '/');
      IndexOfAbsent(id, '/');
      SlugStart(id);
    }
  }

  lemma FileComponents(id: string, suffix: string, comp: string)
    requires ValidId(id) && '/' !in suffix && comp in Split(Slashed(id) + suffix, '/')
    ensures comp != "" && IsAlnum(comp[0])
  {
    SplitWithSuffix(Slashed(id), '/', suffix, comp);
    if comp in Split(Slashed(id), '/') {
      IdComponents(id, comp);
    } else {
      var p :| p in Split(Slashed(id), '/') && comp == p + suffix;
      IdComponents(id, p);
    }
  }

  /** Every component of a page's path below its own subdirectory starts with a letter or digit:
      none is empty, `.` or `..`. */
  lemma PathStaysInside(kind: Kind, id: string, comp: string)
    requires !kind.Index? && ValidId(id)
    ensures TargetPath(kind, id) == "pages/" + Subdir(kind) + "/" + (Slashed(id) + ".md")
    ensures comp in Split(Slashed(id) + ".md", '/') ==> comp != "" && IsAlnum(comp[0])
  {
    if comp in Split(Slashed(id) + ".md", '/') {
      FileComponents(id, ".md", comp);
    }
  }

  // ---- the grammar and the map, spelled out ----

  /** There is a separator exactly where two colons meet. */
  lemma {:induction false} SeparatorExactly(s: string)
    ensures HasSeparator(s) <==> exists i: nat :: i + 1 < |s| && s[i] == ':' && s[i + 1] == ':'
    decreases |s|
  {
    if |s| >= 2 && !(s[0] == ':' && s[1] == ':') {
      SeparatorExactly(s[1..]);
      if i: nat :| i + 1 < |s| && s[i] == ':' && s[i + 1] == ':' {
        assert s[1..][i - 1] == ':' && s[1..][i - 1 + 1] == ':';
      }
    }
  }

  function Join(parts: seq<string>, c: char): string
    requires parts != []
  {
    if |parts| == 1 then parts[0] else parts[0] + [c] + Join(parts[1..], c)
  }

  /** Splitting cuts at every `c` and nowhere else. */
  lemma {:induction false} SplitJoins(s: string, c: char)
    ensures Join(Split(s, c), c) == s && forall part | part in Split(s, c) :: c !in part
    decreases |s|
  {
    var i := IndexOf(s, c);
    if i == |s| {
      IndexOfAbsent(s, c);
    } else {
      var rest := Split(s[i + 1..], c);
      SplitJoins(s[i + 1..], c);
      assert Split(s, c) == [s[..i]] + rest && ([s[..i]] + rest)[1..] == rest;
      assert s == s[..i] + [c] + s[i + 1..];
    }
  }

  lemma {:induction false} OneSeparator(a: string, b: string)
    requires ':' !in a && ':' !in b
    ensures CountSeparators(a + [':', ':'] + b) == 1
    decreases |a|
  {
    var s := a + [':', ':'] + b;
    if a == "" {
      assert s[2..] == b;
      NoSeparator(b);
    } else {
      assert s[0] == a[0] && s[1..] == a[1..] + [':', ':'] + b;
      OneSeparator(a[1..], b);
    }
  }

  lemma PathHasNoColon(rel: string)
    requires forall comp | comp in Split(rel, '/') :: ValidComponent(comp)
    ensures ':' !in rel
  {
    forall comp | comp in Split(rel, '/') ensures ':' !in comp { ComponentHasNo(comp, ':'); }
    SplitHasNo(rel, ':', '/');
  }

  /** A source's slug, and a path of valid components. */
  predicate SourceAndPath(source: string, rel: string)
  {
    ValidSlugId(source) && forall comp | comp in Split(rel, '/') :: ValidComponent(comp)
  }

  lemma SectionOf(source: string, rel: string)
    requires SourceAndPath(source, rel)
    ensures var id := source + [':', ':'] + rel;
            && FindSeparator(id) == |source| && (ValidSectionId(id) <==> |id| <= 254)
            && Slashed(id) == source + ['/'] + rel
  {
    var id := source + [':', ':'] + rel;
    SlugHasNo(source, ':');
    PathHasNoColon(rel);
    SeparatorIn(source, rel);
    OneSeparator(source, rel);
    assert id[..|source|] == source && id[|source| + 2..] == rel;
  }

  lemma SectionSplits(id: string)
    requires ValidSectionId(id)
    ensures |id| <= 254 && exists source, rel :: SourceAndPath(source, rel) && id == source + [':', ':'] + rel
  {
    SectionParts(id);
    var i := FindSeparator(id);
    assert SourceAndPath(id[..i], id[i + 2..]) && id == id[..i] + [':', ':'] + id[i + 2..];
  }

  /** A section id is a source's slug and a path of valid components, joined by two colons, short enough: there
      is no need to look for other separators. */
  lemma SectionExactly(id: string)
    ensures ValidSectionId(id) <==>
              |id| <= 254 && exists source, rel :: SourceAndPath(source, rel) && id == source + [':', ':'] + rel
  {
    if ValidSectionId(id) { SectionSplits(id); }
    if source, rel :| SourceAndPath(source, rel) && id == source + [':', ':'] + rel { SectionOf(source, rel); }
  }

  /** The same letters, in either case. */
  predicate SameLetters(s: string, word: string)
  {
    |s| == |word| && forall i | 0 <= i < |s| :: s[i] == word[i] || s[i] as int + 32 == word[i] as int
  }

  lemma LowerIs(s: string, word: string)
    requires forall c | c in word :: 'a' <= c <= 'z'
    ensures Lower(s) == word <==> SameLetters(s, word)
  {
    if Lower(s) == word {
      forall i | 0 <= i < |s| ensures s[i] == word[i] || s[i] as int + 32 == word[i] as int {
        assert Lower(s)[i] == word[i];
      }
    }
    if SameLetters(s, word) {
      forall i | 0 <= i < |s| ensures Lower(s)[i] == word[i] { assert word[i] in word; }
    }
  }

  /** The names Windows keeps for devices, in any case, are refused: three letters, or three letters and a digit. */
  lemma DeviceNamesAreReserved(s: string)
    ensures IsReserved(Lower(s)) <==>
              || SameLetters(s, "con") || SameLetters(s, "prn") || SameLetters(s, "aux") || SameLetters(s, "nul")
              || (|s| == 4 && (SameLetters(s[..3], "com") || SameLetters(s[..3], "lpt")) && '1' <= s[3] <= '9')
  {
    LowerIs(s, "con");
    LowerIs(s, "prn");
    LowerIs(s, "aux");
    LowerIs(s, "nul");
    if |s| == 4 {
      assert Lower(s)[..3] == Lower(s[..3]);
      LowerIs(s[..3], "com");
      LowerIs(s[..3], "lpt");
    }
  }

  /** The text, or the text with a newline after it. */
  predicate NewlineAside(s: string, text: string)
  {
    s == text || s == text + ['\n']
  }

  predicate StartsPlain(s: string)
  {
    s != "" && ('a' <= s[0] <= 'z' || 'A' <= s[0] <= 'Z' || '0' <= s[0] <= '9')
  }

  lemma NewlineChomped(s: string, text: string)
    requires NewlineAside(s, text) && '\n' !in text
    ensures Chomp(s) == text
  {
    if s == text && s != "" {
      assert s[|s| - 1] in text;
    } else if s != text {
      assert s[..|s| - 1] == text;
    }
  }

  lemma ChompedNewline(s: string)
    ensures NewlineAside(s, Chomp(s))
  {
    if s != "" && s[|s| - 1] == '\n' { assert s == s[..|s| - 1] + ['\n']; }
  }

  /** Up to 254 letters, digits, underscores and hyphens, starting with a letter or digit. */
  predicate Slug(s: string)
  {
    StartsPlain(s) && |s| <= 254 &&
    forall c | c in s :: 'a' <= c <= 'z' || 'A' <= c <= 'Z' || '0' <= c <= '9' || c == '_' || c == '-'
  }

  /** Letters, digits, underscores, hyphens and dots, starting with a letter or digit. */
  predicate FileName(s: string)
  {
    StartsPlain(s) &&
    forall c | c in s :: 'a' <= c <= 'z' || 'A' <= c <= 'Z' || '0' <= c <= '9' || c == '_' || c == '-' || c == '.'
  }

  /** A valid slug is such a text, with or without one newline after it, that is no device's name. */
  lemma SlugExactly(id: string)
    ensures ValidSlugId(id) <==>
              !IsReserved(Lower(id)) && exists slug :: Slug(slug) && NewlineAside(id, slug)
  {
    if ValidSlugId(id) {
      ChompedNewline(id);
      assert Slug(Chomp(id));
    }
    if slug :| Slug(slug) && NewlineAside(id, slug) { NewlineChomped(id, slug); }
  }

  /** And a valid component is such a file name, with or without a newline, whose part before the first dot is none. */
  lemma ComponentExactly(comp: string)
    ensures ValidComponent(comp) <==>
              && !IsReserved(Lower(comp[..IndexOf(comp, '.')]))
              && exists name :: FileName(name) && NewlineAside(comp, name)
  {
    if ValidComponent(comp) {
      ChompedNewline(comp);
      assert FileName(Chomp(comp));
    }
    if name :| FileName(name) && NewlineAside(comp, name) { NewlineChomped(comp, name); }
  }

  /** Where the pages of a kind lie. */
  function Directory(kind: Kind): string
    requires !kind.Index?
  {
    if kind == Entity then "pages/entities/"
    else if kind == Concept then "pages/concepts/"
    else if kind == Source then "pages/sources/"
    else "pages/syntheses/"
  }

  lemma DirectoryIs(kind: Kind)
    requires !kind.Index?
    ensures "pages/" + Subdir(kind) + "/" == Directory(kind)
  {}

  /** A slug's page is the file of that name in the directory of its kind. */
  lemma PathOfSlug(kind: Kind, id: string)
    requires !kind.Index? && ValidSlugId(id)
    ensures TargetPath(kind, id) == Directory(kind) + id + ".md"
  {
    DirectoryIs(kind);
    SlugHasNo(id, ':');
    NoSeparator(id);
  }

  /** A section's page lies below its source, in a directory of the source's name. */
  lemma PathOfSection(kind: Kind, source: string, rel: string)
    requires !kind.Index? && SourceAndPath(source, rel)
    ensures TargetPath(kind, source + [':', ':'] + rel) == Directory(kind) + source + "/" + rel + ".md"
  {
    DirectoryIs(kind);
    SectionOf(source, rel);
    var d := Directory(kind);
    assert d + (source + ['/'] + rel) == d + source + "/" + rel;
  }

  // ---- unique ids ----

  /** What 16 random bytes look like in URL-safe base64 without padding. */
  predicate IsSuffix(s: string)
  {
    |s| == 22 && forall c | c in s :: IsSlugChar(c)
  }

  function Mangle(id: string, suffix: string): string
  {
    id + "-" + suffix
  }

  function Unmangle(id: string): string
    requires |id| >= 23
  {
    id[..|id| - 23]
  }

  lemma MangledIsNoSection(id: string, suffix: string)
    requires ValidSlugId(id) && IsSuffix(suffix)
    ensures !HasSeparator(Mangle(id, suffix))
  {
    SlugHasNo(id, ':');
    assert forall c | c in Mangle(id, suffix) :: c in id || c == '-' || c in suffix;
    assert ':' !in Mangle(id, suffix);
    NoSeparator(Mangle(id, suffix));
  }

  /** A mangled slug is a valid id exactly when the slug leaves room for the suffix and does not
      end in the newline that `$` lets through. */
  lemma MangledIsValid(id: string, suffix: string)
    requires ValidSlugId(id) && IsSuffix(suffix)
    ensures ValidId(Mangle(id, suffix)) <==> |id| <= 231 && id[|id| - 1] != '\n'
  {
    var m := Mangle(id, suffix);
    MangledIsNoSection(id, suffix);
    assert m[|m| - 1] == suffix[21] && suffix[21] in suffix;
    assert Chomp(m) == m;
    assert |Lower(m)| > 4;
    assert m[0] == id[0];
    assert forall c | c in m :: c in id || c == '-' || c in suffix;
    if id[|id| - 1] == '\n' {
      assert m[|id| - 1] == '\n' && m[|id| - 1] in m;
    }
  }

  /** Mangling loses nothing: the slug and the suffix can both be read back. */
  lemma MangleRoundTrip(id: string, suffix: string)
    requires IsSuffix(suffix)
    ensures Unmangle(Mangle(id, suffix)) == id
    ensures forall id', suffix' | IsSuffix(suffix') && Mangle(id', suffix') == Mangle(id, suffix) ::
              id' == id && suffix' == suffix
  {
    forall id', suffix' | IsSuffix(suffix') && Mangle(id', suffix') == Mangle(id, suffix)
      ensures id' == id && suffix' == suffix
    {
      var m := Mangle(id, suffix);
      assert m[..|m| - 23] == id && m[..|m| - 23] == id';
      assert m[|m| - 22..] == suffix && m[|m| - 22..] == suffix';
    }
  }
}
