/**
 POSIX `normalize` and `resolve`, and the two lexical checks on relative paths
 (packages/watchtower-core/src/behavior/verifyEvidence.ts).
 */
module Paths {
  import opened Texts
  import opened Lists
  import opened Options

  const NUL: CodeUnit := 0
  const DOTS: Text := [DOT, DOT]
  const SLASH_DOTS: Text := [SLASH, DOT, DOT]
  const BACKSLASH_DOTS: Text := [BACKSLASH, DOT, DOT]

  // ---- Normalisation as a stack machine over segments ----

  function Step(stack: seq<Text>, part: Text, aboveRoot: bool): seq<Text> {
    var n := |stack|;
    if part == [] || part == [DOT] then stack
    else if part != DOTS then stack + [part]
    else if n > 0 && stack[n - 1] != DOTS then stack[..n - 1]
    else if aboveRoot then stack + [DOTS]
    else stack
  }

  function Fold(stack: seq<Text>, parts: seq<Text>, aboveRoot: bool): seq<Text> {
    if parts == [] then stack
    else
      var last := |parts| - 1;
      Step(Fold(stack, parts[..last], aboveRoot), parts[last], aboveRoot)
  }

  predicate IsAbsolute(path: Text) { path != [] && path[0] == SLASH }

  predicate EndsWithSlash(path: Text) { path != [] && path[|path| - 1] == SLASH }

  /** The segments of a normalised relative path: leading `..`s, then names. */
  function Relative(path: Text): seq<Text> { Fold([], Split(path, SLASH), true) }

  /** `path.posix.normalize(path)` */
  function Normalize(path: Text): Text {
    var stack := Fold([], Split(path, SLASH), !IsAbsolute(path));
    var body := Join(stack, SLASH);
    if path == [] then [DOT]
    else if body == [] then
      if IsAbsolute(path) then [SLASH] else if EndsWithSlash(path) then [DOT, SLASH] else [DOT]
    else (if IsAbsolute(path) then [SLASH] else []) + body + (if EndsWithSlash(path) then [SLASH] else [])
  }

  /** The names below the root of `path`, resolved against the absolute directory `dir`. */
  function Names(dir: Text, path: Text): seq<Text> {
    Fold([], Split(if IsAbsolute(path) then path else dir + [SLASH] + path, SLASH), false)
  }

  function Rooted(names: seq<Text>): Text { [SLASH] + Join(names, SLASH) }

  /** `path.posix.resolve(dir, path)` for an absolute `dir` */
  function Resolve(dir: Text, path: Text): Text { Rooted(Names(dir, path)) }

  // ---- The two checks ----

  datatype PathCheck = Valid | Empty | Absolute | Traversal | NullByte

  /** `text.includes(pattern)` */
  predicate Includes(text: Text, pattern: Text) {
    pattern <= text || (text != [] && Includes(text[1..], pattern))
  }

  /** The three traversal tests on a normalised path. */
  predicate Traverses(normalized: Text) {
    DOTS <= normalized || Includes(normalized, SLASH_DOTS) || Includes(normalized, BACKSLASH_DOTS)
  }

  function ValidateRelativePath(path: Text): PathCheck {
    if path == [] then Empty
    else if IsAbsolute(path) then Absolute
    else if Traverses(Normalize(path)) then Traversal
    else if NUL in path then NullByte
    else Valid
  }

  function SafeJoin(cwd: Text, baseDir: Text, relativePath: Text): Option<Text> {
    var base := Resolve(cwd, baseDir);
    var joined := Resolve(base, relativePath);
    if !(base + [SLASH] <= joined) && joined != base then None else Some(joined)
  }

  // ---- Segments ----

  /** A name: what a stack without leading `..`s consists of. */
  predicate IsName(s: Text) { s != [] && s != [DOT] && s != DOTS && SLASH !in s }

  predicate AreNames(parts: seq<Text>) { forall s <- parts :: IsName(s) }

  predicate SlashFree(parts: seq<Text>) { forall s <- parts :: SLASH !in s }

  predicate IsSegment(s: Text) { IsName(s) || s == DOTS }

  lemma {:induction false} FoldAppend(stack: seq<Text>, xs: seq<Text>, ys: seq<Text>, aboveRoot: bool)
    ensures Fold(stack, xs + ys, aboveRoot) == Fold(Fold(stack, xs, aboveRoot), ys, aboveRoot)
  {
    if ys == [] {
      assert xs + ys == xs;
    } else {
      FoldAppend(stack, xs, ys[..|ys| - 1], aboveRoot);
      assert (xs + ys)[..|xs + ys| - 1] == xs + ys[..|ys| - 1];
    }
  }

  lemma {:induction false} FoldNames(stack: seq<Text>, names: seq<Text>, aboveRoot: bool)
    requires AreNames(names)
    ensures Fold(stack, names, aboveRoot) == stack + names
  {
    if names != [] {
      var last := |names| - 1;
      assert IsName(names[last]);
      assert names == names[..last] + [names[last]];
      FoldNames(stack, names[..last], aboveRoot);
    }
  }

  lemma {:induction false} FoldGivesNames(stack: seq<Text>, parts: seq<Text>)
    requires AreNames(stack) && SlashFree(parts)
    ensures AreNames(Fold(stack, parts, false))
  {
    if parts != [] {
      FoldGivesNames(stack, parts[..|parts| - 1]);
    }
  }

  lemma {:induction false} FoldGivesSegments(parts: seq<Text>)
    requires SlashFree(parts)
    ensures forall s <- Fold([], parts, true) :: IsSegment(s)
  {
    if parts != [] {
      FoldGivesSegments(parts[..|parts| - 1]);
    }
  }

  /** The stack argument: below any base, a path and its normal form lead to the same place. */
  lemma {:induction false} FoldNormalized(base: seq<Text>, parts: seq<Text>)
    requires SlashFree(parts)
    ensures Fold(base, parts, false) == Fold(base, Fold([], parts, true), false)
  {
    if parts != [] {
      var front, part := parts[..|parts| - 1], parts[|parts| - 1];
      var r := Fold([], front, true);
      FoldNormalized(base, front);
      FoldGivesSegments(front);
      StepNormalized(base, r, part);
    }
  }

  lemma StepNormalized(base: seq<Text>, r: seq<Text>, part: Text)
    requires forall s <- r :: IsSegment(s)
    ensures Step(Fold(base, r, false), part, false) == Fold(base, Step(r, part, true), false)
  {
    if part == [] || part == [DOT] {
    } else if part == DOTS && r != [] && r[|r| - 1] != DOTS {
      assert IsSegment(r[|r| - 1]);
    } else {
      assert (r + [part])[..|r|] == r;
    }
  }

  // ---- Segments and their text ----

  lemma SplitRooted(names: seq<Text>, rest: Text)
    requires AreNames(names)
    ensures Split(Rooted(names) + [SLASH] + rest, SLASH) == [[]] + (if names == [] then [[]] else names) + Split(rest, SLASH)
  {
    var body := Join(names, SLASH);
    assert Rooted(names) + [SLASH] + rest == [] + [SLASH] + (body + [SLASH] + rest);
    SplitConcat([], body + [SLASH] + rest, SLASH);
    if names == [] {
      SplitConcat([], rest, SLASH);
    } else {
      SplitJoined(names, rest);
    }
  }

  lemma Nest(a: Text, b: Text, c: Text)
    ensures a + [SLASH] + b + [SLASH] + c == a + [SLASH] + (b + [SLASH] + c)
  {
  }

  lemma {:induction false} SplitJoined(parts: seq<Text>, rest: Text)
    requires SlashFree(parts) && parts != []
    ensures Split(Join(parts, SLASH) + [SLASH] + rest, SLASH) == parts + Split(rest, SLASH)
  {
    var tail := Join(parts[1..], SLASH);
    if |parts| == 1 {
      SplitConcat(parts[0], rest, SLASH);
    } else {
      SplitJoined(parts[1..], rest);
      SplitConcat(parts[0], tail + [SLASH] + rest, SLASH);
      Nest(parts[0], tail, rest);
      Associative([parts[0]], parts[1..], Split(rest, SLASH));
      assert parts == [parts[0]] + parts[1..];
    }
  }

  lemma RootedInjective(a: seq<Text>, b: seq<Text>)
    requires AreNames(a) && AreNames(b) && Rooted(a) == Rooted(b)
    ensures a == b
  {
    assert Join(a, SLASH) == Rooted(a)[1..] == Join(b, SLASH);
    SplitNames(a);
    SplitNames(b);
  }

  /** The text of names is empty only when there are none. */
  lemma SplitNames(a: seq<Text>)
    requires AreNames(a)
    ensures Join(a, SLASH) == [] <==> a == []
    ensures a != [] ==> Split(Join(a, SLASH), SLASH) == a && Join(a, SLASH)[0] != SLASH
  {
    if a != [] {
      assert IsName(a[0]);
      SplitJoin(a, SLASH);
    }
  }

  lemma NamesAreNames(dir: Text, path: Text)
    ensures AreNames(Names(dir, path))
  {
    FoldGivesNames([], Split(if IsAbsolute(path) then path else dir + [SLASH] + path, SLASH));
  }

  /** A relative path is resolved by running its segments on the stack of the base. */
  lemma NamesBelow(base: seq<Text>, path: Text)
    requires AreNames(base) && !IsAbsolute(path)
    ensures Names(Rooted(base), path) == Fold(base, Split(path, SLASH), false)
  {
    var head: seq<Text> := [[]] + (if base == [] then [[]] else base);
    SplitRooted(base, path);
    FoldAppend([], head, Split(path, SLASH), false);
    FoldHead(base);
  }

  lemma FoldHead(base: seq<Text>)
    requires AreNames(base)
    ensures Fold([], [[]] + (if base == [] then [[]] else base), false) == base
  {
    if base == [] {
      FoldAppend([], [[]], [[]], false);
    } else {
      FoldAppend([], [[]], base, false);
      FoldNames([], base, false);
    }
  }

  // ---- What the second check means ----

  lemma JoinAppend(a: seq<Text>, b: seq<Text>)
    requires a != [] && b != []
    ensures Join(a + b, SLASH) == Join(a, SLASH) + [SLASH] + Join(b, SLASH)
  {
    if |a| == 1 {
      assert (a + b)[1..] == b;
    } else {
      JoinAppend(a[1..], b);
      assert (a + b)[1..] == a[1..] + b;
    }
  }

  lemma AfterSlash(a: Text, b: Text)
    requires [SLASH] + a == [SLASH] + b
    ensures a == b
  {
    assert a == ([SLASH] + a)[1..] && b == ([SLASH] + b)[1..];
  }

  lemma PrefixOfText(base: seq<Text>, names: seq<Text>)
    requires AreNames(base) && AreNames(names) && base != []
    requires Rooted(base) + [SLASH] <= Rooted(names)
    ensures base <= names
  {
    var rest := Rooted(names)[|Rooted(base)| + 1..];
    assert Rooted(names) == Rooted(base) + [SLASH] + rest;
    Nest([], Join(base, SLASH), rest);
    AfterSlash(Join(names, SLASH), Join(base, SLASH) + [SLASH] + rest);
    SplitJoined(base, rest);
    SplitNames(names);
  }

  lemma PrefixOfNames(base: seq<Text>, names: seq<Text>)
    requires AreNames(base) && AreNames(names) && base <= names && base != [] && base != names
    ensures Rooted(base) + [SLASH] <= Rooted(names)
  {
    var tail := names[|base|..];
    assert names == base + tail;
    JoinAppend(base, tail);
    assert Rooted(names) == Rooted(base) + [SLASH] + Join(tail, SLASH);
  }

  /** Lexically inside: the segments of the base come first. Nothing is inside the root but the root itself. */
  predicate Inside(base: seq<Text>, names: seq<Text>) {
    names == base || (base != [] && base <= names)
  }

  /** `safeJoin` compares text, and decides containment of segments; it fails for the file root. */
  lemma SafeJoinIsContainment(cwd: Text, baseDir: Text, path: Text)
    ensures
      var base := Names(cwd, baseDir);
      var names := Names(Rooted(base), path);
      SafeJoin(cwd, baseDir, path) == if Inside(base, names) then Some(Rooted(names)) else None
  {
    var base := Names(cwd, baseDir);
    var names := Names(Rooted(base), path);
    NamesAreNames(cwd, baseDir);
    NamesAreNames(Rooted(base), path);
    if Rooted(base) == Rooted(names) {
      RootedInjective(base, names);
    } else if base == [] {
      SplitNames(names);
      assert (Rooted(base) + [SLASH])[1] == SLASH;
    } else if Inside(base, names) {
      PrefixOfNames(base, names);
    } else if Rooted(base) + [SLASH] <= Rooted(names) {
      PrefixOfText(base, names);
    }
  }

  // ---- What the first check means ----

  /** A segment the first check refuses. */
  predicate Suspect(s: Text) { DOTS <= s || Includes(s, BACKSLASH_DOTS) }

  predicate SomeSuspect(parts: seq<Text>) { exists s <- parts :: Suspect(s) }

  lemma {:induction false} IncludesBackslashDots(a: Text, b: Text)
    requires SLASH !in a
    ensures Includes(a + [SLASH] + b, BACKSLASH_DOTS) <==> Includes(a, BACKSLASH_DOTS) || Includes(b, BACKSLASH_DOTS)
  {
    var t := a + [SLASH] + b;
    if a == [] {
      assert t[0] == SLASH && t[1..] == b;
    } else {
      assert t[1..] == a[1..] + [SLASH] + b;
      IncludesBackslashDots(a[1..], b);
      assert t[|a|] == SLASH;
      assert |a| >= 3 ==> t[..3] == a[..3];
    }
  }

  lemma {:induction false} IncludesSlashDots(a: Text, b: Text)
    requires SLASH !in a
    ensures Includes(a + [SLASH] + b, SLASH_DOTS) <==> DOTS <= b || Includes(b, SLASH_DOTS)
  {
    var t := a + [SLASH] + b;
    if a == [] {
      assert t == [SLASH] + b && t[1..] == b;
      assert |b| >= 2 ==> t[..3] == [SLASH] + b[..2];
    } else {
      assert t[1..] == a[1..] + [SLASH] + b;
      IncludesSlashDots(a[1..], b);
      assert t[0] == a[0];
    }
  }

  lemma {:induction false} NoSlashDots(a: Text)
    requires SLASH !in a
    ensures !Includes(a, SLASH_DOTS)
  {
    if a != [] {
      assert a[0] != SLASH;
      NoSlashDots(a[1..]);
    }
  }

  lemma TraversesConcat(a: Text, b: Text)
    requires SLASH !in a
    ensures Traverses(a + [SLASH] + b) <==> Suspect(a) || Traverses(b)
  {
    IncludesBackslashDots(a, b);
    IncludesSlashDots(a, b);
    var t := a + [SLASH] + b;
    assert t[|a|] == SLASH;
    assert |a| >= 2 ==> t[..2] == a[..2];
  }

  lemma {:induction false} TraversesJoin(parts: seq<Text>)
    requires SlashFree(parts) && parts != []
    ensures Traverses(Join(parts, SLASH)) <==> SomeSuspect(parts)
  {
    NoSlashDots(parts[0]);
    if |parts| > 1 {
      TraversesConcat(parts[0], Join(parts[1..], SLASH));
      TraversesJoin(parts[1..]);
      assert parts == [parts[0]] + parts[1..];
    }
  }

  lemma {:induction false} TooShort(text: Text, pattern: Text)
    requires |text| < |pattern|
    ensures !Includes(text, pattern)
  {
    if text != [] {
      TooShort(text[1..], pattern);
    }
  }

  lemma DotsDoNotTraverse()
    ensures !Traverses([DOT]) && !Traverses([DOT, SLASH])
  {
    TooShort([DOT], SLASH_DOTS);
    TooShort([DOT], BACKSLASH_DOTS);
    TooShort([DOT, SLASH], SLASH_DOTS);
    TooShort([DOT, SLASH], BACKSLASH_DOTS);
    assert [DOT, SLASH][1] != DOT;
  }

  lemma JoinSegments(parts: seq<Text>)
    requires forall s <- parts :: IsSegment(s)
    ensures Join(parts, SLASH) == [] <==> parts == []
  {
    if parts != [] {
      assert IsSegment(parts[0]);
    }
  }

  /** A relative path traverses exactly when some segment of its normal form is suspect. */
  lemma TraversesMeaning(path: Text)
    requires path != [] && !IsAbsolute(path)
    ensures Traverses(Normalize(path)) <==> SomeSuspect(Relative(path))
  {
    var stack := Relative(path);
    FoldGivesSegments(Split(path, SLASH));
    JoinSegments(stack);
    if stack == [] {
      DotsDoNotTraverse();
    } else {
      TraversesJoin(stack);
      TraversesTrailing(Join(stack, SLASH), stack);
      assert [] + Join(stack, SLASH) == Join(stack, SLASH) == Join(stack, SLASH) + [];
    }
  }

  lemma TraversesTrailing(text: Text, stack: seq<Text>)
    requires stack != [] && SlashFree(stack) && text == Join(stack, SLASH)
    ensures Traverses(text + [SLASH]) <==> Traverses(text)
  {
    var parts: seq<Text> := stack + [[]];
    JoinAppend(stack, [[]]);
    TraversesJoin(stack);
    TraversesJoin(parts);
    assert !Suspect([]);
    assert text + [SLASH] + [] == text + [SLASH];
    if s :| s in stack && Suspect(s) {
      assert s in parts;
    }
  }

  /** What the first check accepts, on every input. */
  lemma ValidMeaning(path: Text)
    ensures ValidateRelativePath(path) == Valid <==>
              && path != [] && path[0] != SLASH && NUL !in path
              && !SomeSuspect(Relative(path))
  {
    if path != [] && path[0] != SLASH {
      TraversesMeaning(path);
    }
  }

  /** A path the first check accepts normalises to plain names. */
  lemma ValidIsNames(path: Text)
    requires ValidateRelativePath(path) == Valid
    ensures AreNames(Relative(path))
  {
    ValidMeaning(path);
    FoldGivesSegments(Split(path, SLASH));
    forall s | s in Relative(path) ensures IsName(s) {
      assert IsSegment(s) && !Suspect(s);
    }
  }

  /** A name without suspicious parts is accepted as it stands. */
  lemma PlainName(name: Text)
    requires IsName(name) && !Suspect(name) && NUL !in name
    ensures Relative(name) == [name] && ValidateRelativePath(name) == Valid
  {
    assert Split(name, SLASH) == [name] && AreNames([name]);
    FoldNames([], [name], true);
    assert [] + [name] == [name];
    ValidMeaning(name);
  }

  /** A single unit other than a dot, a slash, a backslash and NUL is a name. */
  lemma PlainChar(c: CodeUnit)
    requires c != DOT && c != SLASH && c != NUL
    ensures IsName([c]) && !Suspect([c]) && NUL !in [c]
  {
    TooShort([c], BACKSLASH_DOTS);
  }

  /** A name resolved from the file root. */
  lemma NamesFromRoot(name: Text)
    requires IsName(name)
    ensures Names([SLASH], name) == [name]
  {
    assert Rooted([]) == [SLASH] && Split(name, SLASH) == [name] && AreNames([name]) && !IsAbsolute(name);
    NamesBelow([], name);
    FoldNames([], [name], false);
    assert [] + [name] == [name];
  }

  // ---- The two checks agree ----

  /**
   A path accepted by the first check is joined as the base followed by the segments of its normal form, so it passes
   the second one for every base but the file root.
   */
  lemma AcceptedStaysInside(cwd: Text, baseDir: Text, path: Text)
    requires ValidateRelativePath(path) == Valid
    ensures
      var base := Names(cwd, baseDir);
      SafeJoin(cwd, baseDir, path) ==
        if base != [] || Relative(path) == [] then Some(Rooted(base + Relative(path))) else None
  {
    var base := Names(cwd, baseDir);
    NamesAreNames(cwd, baseDir);
    ValidIsNames(path);
    NamesBelow(base, path);
    FoldNormalized(base, Split(path, SLASH));
    FoldNames(base, Relative(path), false);
    SafeJoinIsContainment(cwd, baseDir, path);
  }

  /** How many leading segments are `..`. */
  function Ups(parts: seq<Text>): (n: nat)
    ensures n <= |parts|
  {
    if parts != [] && parts[0] == DOTS then 1 + Ups(parts[1..]) else 0
  }

  /** The base after `n` steps up; the root is its own parent. */
  function Dropped(base: seq<Text>, n: nat): seq<Text> { base[..if n < |base| then |base| - n else 0] }

  /** The normal form of any path is some `..`s and then names. */
  lemma {:induction false} RelativeShape(parts: seq<Text>)
    requires SlashFree(parts)
    ensures
      var r := Fold([], parts, true);
      AreNames(r[Ups(r)..])
  {
    if parts != [] {
      var front := Fold([], parts[..|parts| - 1], true);
      RelativeShape(parts[..|parts| - 1]);
      StepShape(front, parts[|parts| - 1]);
    }
  }

  lemma StepShape(r: seq<Text>, part: Text)
    requires AreNames(r[Ups(r)..]) && SLASH !in part
    ensures
      var t := Step(r, part, true);
      AreNames(t[Ups(t)..])
  {
    var n := |r|;
    if part == [] || part == [DOT] {
    } else if part == DOTS && n > 0 && r[n - 1] != DOTS {
      UpsPrefix(r, r[..n - 1]);
    } else {
      UpsPrefix(r + [part], r);
      if part == DOTS && n > 0 {
        UpsAll(r);
      }
    }
  }

  lemma {:induction false} UpsPrefix(r: seq<Text>, t: seq<Text>)
    requires t <= r
    ensures Ups(t) <= Ups(r) && (Ups(t) < |t| ==> Ups(t) == Ups(r))
    ensures Ups(t) == |t| && |t| < |r| && r[|t|] == DOTS ==> Ups(r) > |t|
    ensures |t| < |r| && r[|t|] != DOTS ==> Ups(r) == Ups(t)
  {
    if t != [] && t[0] == DOTS {
      UpsPrefix(r[1..], t[1..]);
    }
  }

  lemma {:induction false} UpsAll(r: seq<Text>)
    requires AreNames(r[Ups(r)..]) && r != [] && r[|r| - 1] == DOTS
    ensures Ups(r) == |r|
  {
    if Ups(r) < |r| {
      LastIsName(r[Ups(r)..]);
    }
  }

  lemma LastIsName(names: seq<Text>)
    requires AreNames(names) && names != []
    ensures IsName(names[|names| - 1])
  {
  }

  lemma {:induction false} FoldUps(base: seq<Text>, parts: seq<Text>)
    requires AreNames(base) && AreNames(parts[Ups(parts)..])
    ensures Fold(base, parts, false) == Dropped(base, Ups(parts)) + parts[Ups(parts)..]
  {
    if Ups(parts) == 0 {
      FoldNames(base, parts, false);
    } else {
      var up := Step(base, DOTS, false);
      assert parts == [DOTS] + parts[1..];
      FoldAppend(base, [DOTS], parts[1..], false);
      assert [DOTS][..0] == [];
      FoldUps(up, parts[1..]);
      if base != [] {
        LastIsName(base);
      }
      assert Dropped(up, Ups(parts[1..])) == Dropped(base, Ups(parts));
      assert parts[1..][Ups(parts[1..])..] == parts[Ups(parts)..];
    }
  }

  /** Where any relative path leads: up as often as its normal form says, then down its names. */
  lemma ResolvedNames(base: seq<Text>, path: Text)
    requires AreNames(base) && !IsAbsolute(path)
    ensures
      var r := Relative(path);
      Names(Rooted(base), path) == Dropped(base, Ups(r)) + r[Ups(r)..]
  {
    NamesBelow(base, path);
    FoldNormalized(base, Split(path, SLASH));
    RelativeShape(Split(path, SLASH));
    FoldUps(base, Relative(path));
  }

  /**
   The second check on its own accepts a relative path exactly when the path, after its steps up, comes back down
   through the directories it left; at the file root, when it goes nowhere.
   */
  lemma SafeJoinAccepts(cwd: Text, baseDir: Text, path: Text)
    requires !IsAbsolute(path)
    ensures
      var base := Names(cwd, baseDir);
      var r := Relative(path);
      SafeJoin(cwd, baseDir, path).Some? <==>
        if base == [] then r[Ups(r)..] == [] else base[|Dropped(base, Ups(r))|..] <= r[Ups(r)..]
  {
    var base := Names(cwd, baseDir);
    var r := Relative(path);
    NamesAreNames(cwd, baseDir);
    SafeJoinIsContainment(cwd, baseDir, path);
    ResolvedNames(base, path);
    Reenters(base, |Dropped(base, Ups(r))|, r[Ups(r)..]);
  }

  lemma Reenters(base: seq<Text>, m: nat, names: seq<Text>)
    requires m <= |base|
    ensures base <= base[..m] + names <==> base[m..] <= names
  {
    var whole := base[..m] + names;
    assert base == base[..m] + base[m..];
    if base <= whole {
      assert whole[m..|base|] == names[..|base| - m];
      assert whole[..|base|][m..] == whole[m..|base|];
    }
    if base[m..] <= names {
      assert names == base[m..] + names[|base| - m..];
      assert whole == base + names[|base| - m..];
    }
  }
}
