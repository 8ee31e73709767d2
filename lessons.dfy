/** The lesson catalog (src/data/lessons.ts): a constant, ordered list of
    39 lessons in 7 modules and the pure lookups over it. */
module Lessons {
  import opened Common

  /** One catalog entry, identified by the pair (moduleNumber, lessonNumber).
      Titles and descriptions are display text and are not modelled. */
  datatype LessonData = LessonData(moduleNumber: int, lessonNumber: int, videoId: string, isBonus: bool)

  // The catalog is written block by block, one constant per module, in
  // the order of the source array.

  const Module1: seq<LessonData> := [
    LessonData(1, 1, "c1CQZVK5lhc", false),
    LessonData(1, 2, "S7_4EebCUcM", false),
    LessonData(1, 3, "fsCvIC_FYRM", false),
    LessonData(1, 4, "wPFir0N4HoU", false),
    LessonData(1, 5, "w3gApW6MI3M", true),
    LessonData(1, 6, "ODhg0ND4DYc", true),
    LessonData(1, 7, "jGjdF7U14EY", true),
    LessonData(1, 8, "G37FOnMkW2A", true)
  ]

  const Module2: seq<LessonData> := [
    LessonData(2, 1, "Kvmh9RUIfFc", false),
    LessonData(2, 2, "pfXXwkNWTk", false),
    LessonData(2, 3, "v_d7mmtVh0c", false),
    LessonData(2, 4, "knKjXRx0iag", false),
    LessonData(2, 5, "eDMlDbXrBUA", true),
    LessonData(2, 6, "DbMmYHv1xkk", true),
    LessonData(2, 7, "nz3IEPR7euo", true),
    LessonData(2, 8, "qnw_Olu0rnM", true)
  ]

  const Module3: seq<LessonData> := [
    LessonData(3, 1, "Itat8QDkhhQ", false),
    LessonData(3, 2, "5LMJop82nBk", false),
    LessonData(3, 3, "8KD93jjgbBg", false),
    LessonData(3, 4, "TAgC5VAg2_o", true)
  ]

  const Module4: seq<LessonData> := [
    LessonData(4, 1, "hjVBIwEWO7o", false),
    LessonData(4, 2, "tu2NxuqrbK4", false),
    LessonData(4, 3, "hRYhIoNhJqs", false),
    LessonData(4, 4, "h5gUHiS-q7k", false)
  ]

  const Module5: seq<LessonData> := [
    LessonData(5, 1, "6YSO7AYrZI", false),
    LessonData(5, 2, "sklhMr24Fg4", false),
    LessonData(5, 3, "h5gUHiS-q7k", false)
  ]

  const Module6: seq<LessonData> := [
    LessonData(6, 1, "jkBEYleb4ZM", false),
    LessonData(6, 2, "MYPGCmLJFKw", false),
    LessonData(6, 3, "eSgYJD9OVSU", false),
    LessonData(6, 4, "QDFILn1Z-n0", true),
    LessonData(6, 5, "UL6eqQ3yGFA", true),
    LessonData(6, 6, "s4SzR3LStMc", true)
  ]

  const Module7: seq<LessonData> := [
    LessonData(7, 1, "kSf3mrsW5XA", false),
    LessonData(7, 2, "4p3u7AaOsDg", false),
    LessonData(7, 3, "NXDmCor9bUY", false),
    LessonData(7, 4, "zbwv5QuANd8", false),
    LessonData(7, 5, "s4SzR3LStMc", true),
    LessonData(7, 6, "koNd0YLIYkQ", true)
  ]

  /** The seven module blocks, in catalog order. */
  const Blocks: seq<seq<LessonData>> := [Module1, Module2, Module3, Module4, Module5, Module6, Module7]

  /** `lessonsData`: the seven module blocks, one after the other. */
  const LessonsData: seq<LessonData> :=
    Module1 + Module2 + Module3 + Module4 + Module5 + Module6 + Module7

  predicate HasKey(e: LessonData, m: int, l: int)
  {
    e.moduleNumber == m && e.lessonNumber == l
  }

  predicate UniqueKeys(c: seq<LessonData>)
  {
    forall i, j :: 0 <= i < |c| && 0 <= j < |c| && HasKey(c[j], c[i].moduleNumber, c[i].lessonNumber) ==> i == j
  }

  // ---------------------------------------------------------------
  // A catalog laid out as consecutive blocks, one per module
  // ---------------------------------------------------------------

  function Flatten(bs: seq<seq<LessonData>>): seq<LessonData>
  {
    if bs == [] then [] else bs[0] + Flatten(bs[1..])
  }

  /** The index in Flatten(bs) of the first entry of block j. */
  function Offset(bs: seq<seq<LessonData>>, j: nat): nat
    requires j <= |bs|
  {
    if j == 0 then 0 else |bs[0]| + Offset(bs[1..], j - 1)
  }

  /** Block j holds the lessons of module base + j, numbered 1, 2, ..., n. */
  predicate Numbered(bs: seq<seq<LessonData>>, base: int)
  {
    forall j, k :: 0 <= j < |bs| && 0 <= k < |bs[j]| ==>
      bs[j][k].moduleNumber == base + j && bs[j][k].lessonNumber == k + 1
  }

  lemma {:induction false} FlattenLength(bs: seq<seq<LessonData>>)
    ensures |Flatten(bs)| == Offset(bs, |bs|)
  {
    if bs != [] {
      FlattenLength(bs[1..]);
    }
  }

  lemma {:induction false} OffsetGrows(bs: seq<seq<LessonData>>, j: nat, n: nat)
    requires j < n <= |bs|
    ensures Offset(bs, j) + |bs[j]| <= Offset(bs, n)
  {
    if j > 0 {
      OffsetGrows(bs[1..], j - 1, n - 1);
    } else if n > 1 {
      OffsetGrows(bs[1..], 0, n - 1);
    }
  }

  /** Entry k of block j sits at index Offset(bs, j) + k of the catalog. */
  lemma {:induction false} FlattenAt(bs: seq<seq<LessonData>>, j: nat, k: nat)
    requires j < |bs| && k < |bs[j]|
    ensures Offset(bs, j) + k < |Flatten(bs)|
    ensures Flatten(bs)[Offset(bs, j) + k] == bs[j][k]
  {
    FlattenLength(bs);
    OffsetGrows(bs, j, |bs|);
    var b, rest := bs[0], Flatten(bs[1..]);
    assert Flatten(bs) == b + rest;
    if j > 0 {
      FlattenAt(bs[1..], j - 1, k);
      assert (b + rest)[|b| + Offset(bs[1..], j - 1) + k] == rest[Offset(bs[1..], j - 1) + k];
    } else {
      assert (b + rest)[k] == b[k];
    }
  }

  /** In a numbered layout, entry k of block j has key (base + j, k + 1). */
  lemma NumberedAt(bs: seq<seq<LessonData>>, j: nat, k: nat)
    requires Numbered(bs, 1) && j < |bs| && k < |bs[j]|
    ensures Offset(bs, j) + k < |Flatten(bs)|
    ensures Flatten(bs)[Offset(bs, j) + k] == bs[j][k]
    ensures HasKey(Flatten(bs)[Offset(bs, j) + k], j + 1, k + 1)
  {
    FlattenAt(bs, j, k);
  }

  /** Dropping the first block of a numbered layout leaves one numbered
      from the next module on. */
  lemma NumberedTail(bs: seq<seq<LessonData>>, base: int)
    requires Numbered(bs, base) && bs != []
    ensures Numbered(bs[1..], base + 1)
  {
    forall j, k | 0 <= j < |bs[1..]| && 0 <= k < |bs[1..][j]|
      ensures bs[1..][j][k].moduleNumber == base + 1 + j && bs[1..][j][k].lessonNumber == k + 1
    {
      assert bs[1..][j] == bs[j + 1];
    }
  }

  /** In a numbered layout, each entry sits at the index its key dictates. */
  lemma {:induction false} FlattenPosition(bs: seq<seq<LessonData>>, base: int, i: nat)
    requires Numbered(bs, base) && i < |Flatten(bs)|
    ensures var e := Flatten(bs)[i];
      base <= e.moduleNumber < base + |bs|
      && 1 <= e.lessonNumber <= |bs[e.moduleNumber - base]|
      && i == Offset(bs, e.moduleNumber - base) + e.lessonNumber - 1
  {
    var b, rest := bs[0], Flatten(bs[1..]);
    assert Flatten(bs) == b + rest;
    if i < |b| {
      assert (b + rest)[i] == b[i];
    } else {
      assert (b + rest)[i] == rest[i - |b|];
      NumberedTail(bs, base);
      FlattenPosition(bs[1..], base + 1, i - |b|);
      var e := rest[i - |b|];
      assert bs[1..][e.moduleNumber - base - 1] == bs[e.moduleNumber - base];
    }
  }

  // ---------------------------------------------------------------
  // The concrete catalog
  // ---------------------------------------------------------------

  /** The block of module m; empty for a number that names no module. */
  function ModuleBlock(m: int): seq<LessonData>
  {
    if 1 <= m <= 7 then Blocks[m - 1] else []
  }

  /** The catalog index of the first lesson of module m. */
  function ModuleStart(m: int): nat
    requires 1 <= m <= 7
  {
    Offset(Blocks, m - 1)
  }

  /** A key that names a catalog lesson: module 1..7, lesson 1..size. */
  predicate ValidKey(m: int, l: int)
  {
    1 <= m <= 7 && 1 <= l <= |ModuleBlock(m)|
  }

  /** Module sizes 8, 8, 4, 4, 3, 6, 6; within each module the lessons are
      numbered 1..n in catalog order. */
  lemma CatalogNumbered()
    ensures Numbered(Blocks, 1)
    ensures |Blocks| == 7
    ensures forall m :: 1 <= m <= 7 ==> |ModuleBlock(m)| == [8, 8, 4, 4, 3, 6, 6][m - 1]
  {
    assert Blocks[0] == Module1 && Blocks[1] == Module2 && Blocks[2] == Module3;
    assert Blocks[3] == Module4 && Blocks[4] == Module5 && Blocks[5] == Module6;
    assert Blocks[6] == Module7;
  }

  lemma CatalogIsFlattened()
    ensures LessonsData == Flatten(Blocks)
  {
    var bs := Blocks;
    calc {
      Flatten(bs);
      bs[0] + Flatten(bs[1..]);
      { assert bs[1..][0] == Module2; }
      Module1 + (Module2 + Flatten(bs[2..]));
      { assert bs[2..][0] == Module3 && bs[2..][1..] == bs[3..]; }
      Module1 + (Module2 + (Module3 + Flatten(bs[3..])));
      { assert bs[3..][0] == Module4 && bs[3..][1..] == bs[4..]; }
      Module1 + (Module2 + (Module3 + (Module4 + Flatten(bs[4..]))));
      { assert bs[4..][0] == Module5 && bs[4..][1..] == bs[5..]; }
      Module1 + (Module2 + (Module3 + (Module4 + (Module5 + Flatten(bs[5..])))));
      { assert bs[5..][0] == Module6 && bs[5..][1..] == bs[6..]; }
      Module1 + (Module2 + (Module3 + (Module4 + (Module5 + (Module6 + Flatten(bs[6..]))))));
      { assert bs[6..][0] == Module7 && bs[6..][1..] == []; assert Module7 + [] == Module7; }
      Module1 + (Module2 + (Module3 + (Module4 + (Module5 + (Module6 + Module7)))));
      LessonsData;
    }
  }

  /** The catalog is its seven numbered blocks laid end to end. */
  lemma CatalogLayout()
    ensures |Blocks| == 7 && Numbered(Blocks, 1) && LessonsData == Flatten(Blocks)
  {
    CatalogNumbered();
    CatalogIsFlattened();
  }

  /** The lesson with a valid key (m, l) is at index ModuleStart(m) + l - 1. */
  lemma EntryAt(m: int, l: int)
    requires ValidKey(m, l)
    ensures ModuleStart(m) + l - 1 < |LessonsData|
    ensures HasKey(LessonsData[ModuleStart(m) + l - 1], m, l)
  {
    CatalogLayout();
    NumberedAt(Blocks, m - 1, l - 1);
  }

  /** Every catalog entry has a valid key and sits where its key says. */
  lemma EntryPosition(i: int)
    requires 0 <= i < |LessonsData|
    ensures ValidKey(LessonsData[i].moduleNumber, LessonsData[i].lessonNumber)
    ensures i == ModuleStart(LessonsData[i].moduleNumber) + LessonsData[i].lessonNumber - 1
  {
    CatalogNumbered();
    CatalogIsFlattened();
    FlattenPosition(Blocks, 1, i);
  }

  /** There are 39 lessons and their (module, lesson) keys are unique. */
  lemma CatalogShape()
    ensures |LessonsData| == 39
    ensures UniqueKeys(LessonsData)
  {
    CatalogNumbered();
    CatalogIsFlattened();
    FlattenLength(Blocks);
    forall i, j | 0 <= i < |LessonsData| && 0 <= j < |LessonsData| && HasKey(LessonsData[j], LessonsData[i].moduleNumber, LessonsData[i].lessonNumber)
      ensures i == j
    {
      EntryPosition(i);
      EntryPosition(j);
    }
  }

  /** A key names a catalog lesson exactly when it is valid. */
  lemma KeyExists(m: int, l: int)
    ensures (exists i :: 0 <= i < |LessonsData| && HasKey(LessonsData[i], m, l)) <==> ValidKey(m, l)
  {
    if ValidKey(m, l) {
      EntryAt(m, l);
    }
    forall i | 0 <= i < |LessonsData| && HasKey(LessonsData[i], m, l)
      ensures ValidKey(m, l)
    {
      EntryPosition(i);
    }
  }

  lemma {:induction false} OffsetStep(bs: seq<seq<LessonData>>, j: nat)
    requires j < |bs|
    ensures Offset(bs, j + 1) == Offset(bs, j) + |bs[j]|
  {
    if j > 0 {
      OffsetStep(bs[1..], j - 1);
    }
  }

  /** Module m + 1 starts right after the last lesson of module m. */
  lemma ModuleStartNext(m: int)
    requires 1 <= m < 7
    ensures ModuleStart(m + 1) == ModuleStart(m) + |ModuleBlock(m)|
  {
    CatalogNumbered();
    OffsetStep(Blocks, m - 1);
  }

  // ---------------------------------------------------------------
  // The lookups: find, filter and findIndex over the catalog
  // ---------------------------------------------------------------

  /** findIndex: the first index holding key (m, l), or -1 when none does. */
  function FindIndex(c: seq<LessonData>, m: int, l: int): (i: int)
    ensures -1 <= i < |c|
    ensures 0 <= i ==> HasKey(c[i], m, l) && forall j :: 0 <= j < i ==> !HasKey(c[j], m, l)
    ensures i == -1 <==> forall j :: 0 <= j < |c| ==> !HasKey(c[j], m, l)
  {
    if c == [] then -1
    else if HasKey(c[0], m, l) then 0
    else
      var k := FindIndex(c[1..], m, l);
      if k == -1 then -1 else k + 1
  }

  /** In the catalog, findIndex lands on the position the key dictates. */
  lemma CatalogFindIndex(m: int, l: int)
    ensures FindIndex(LessonsData, m, l) == if ValidKey(m, l) then ModuleStart(m) + l - 1 else -1
  {
    CatalogShape();
    KeyExists(m, l);
    if ValidKey(m, l) {
      EntryAt(m, l);
    }
  }

  /** getLessonData: the entry with key (m, l), or undefined (None). */
  function GetLessonData(moduleNumber: int, lessonNumber: int): (r: Option<LessonData>)
    ensures r.Some? <==> ValidKey(moduleNumber, lessonNumber)
    ensures r.Some? <==> exists i :: 0 <= i < |LessonsData| && HasKey(LessonsData[i], moduleNumber, lessonNumber)
    ensures r.Some? ==> r.value in LessonsData && HasKey(r.value, moduleNumber, lessonNumber)
    ensures forall i :: 0 <= i < |LessonsData| && HasKey(LessonsData[i], moduleNumber, lessonNumber) ==>
      r == Some(LessonsData[i])
  {
    CatalogShape();
    KeyExists(moduleNumber, lessonNumber);
    var i := FindIndex(LessonsData, moduleNumber, lessonNumber);
    if i == -1 then None else Some(LessonsData[i])
  }

  /** filter on the module number, keeping catalog order. */
  function ModuleFilter(c: seq<LessonData>, m: int): (r: seq<LessonData>)
    ensures |r| <= |c|
    ensures forall e :: e in r <==> e in c && e.moduleNumber == m
  {
    if c == [] then []
    else (if c[0].moduleNumber == m then [c[0]] else []) + ModuleFilter(c[1..], m)
  }

  lemma {:induction false} ModuleFilterAppend(a: seq<LessonData>, b: seq<LessonData>, m: int)
    ensures ModuleFilter(a + b, m) == ModuleFilter(a, m) + ModuleFilter(b, m)
  {
    if a != [] {
      assert (a + b)[1..] == a[1..] + b;
      ModuleFilterAppend(a[1..], b, m);
    } else {
      assert a + b == b;
    }
  }

  /** Filtering a block of one module keeps all of it or nothing. */
  lemma {:induction false} ModuleFilterUniform(b: seq<LessonData>, mb: int, m: int)
    requires forall k :: 0 <= k < |b| ==> b[k].moduleNumber == mb
    ensures ModuleFilter(b, m) == if m == mb then b else []
  {
    if b != [] {
      ModuleFilterUniform(b[1..], mb, m);
      assert b == [b[0]] + b[1..];
    }
  }

  /** In a numbered layout, the lessons of a module are exactly its block. */
  lemma {:induction false} ModuleFilterFlatten(bs: seq<seq<LessonData>>, base: int, m: int)
    requires Numbered(bs, base)
    ensures ModuleFilter(Flatten(bs), m) == if base <= m < base + |bs| then bs[m - base] else []
  {
    if bs != [] {
      ModuleFilterAppend(bs[0], Flatten(bs[1..]), m);
      ModuleFilterUniform(bs[0], base, m);
      NumberedTail(bs, base);
      ModuleFilterFlatten(bs[1..], base + 1, m);
      if base < m < base + |bs| {
        assert bs[1..][m - base - 1] == bs[m - base];
      }
    }
  }

  /** getModuleLessons: the lessons of module m in catalog order. They are
      one contiguous block, numbered 1..n; unknown modules give []. */
  function GetModuleLessons(moduleNumber: int): (r: seq<LessonData>)
    ensures forall e :: e in r <==> e in LessonsData && e.moduleNumber == moduleNumber
    ensures r == ModuleBlock(moduleNumber)
    ensures forall k :: 0 <= k < |r| ==> r[k].moduleNumber == moduleNumber && r[k].lessonNumber == k + 1
  {
    CatalogNumbered();
    CatalogIsFlattened();
    ModuleFilterFlatten(Blocks, 1, moduleNumber);
    ModuleFilter(LessonsData, moduleNumber)
  }

  /** getNextLesson: the catalog successor of (m, l); None for the last
      lesson and for an unknown key. */
  function GetNextLesson(moduleNumber: int, lessonNumber: int): (r: Option<LessonData>)
    ensures r.Some? <==> exists i :: 0 <= i < |LessonsData| - 1 && HasKey(LessonsData[i], moduleNumber, lessonNumber)
    ensures forall i :: 0 <= i < |LessonsData| - 1 && HasKey(LessonsData[i], moduleNumber, lessonNumber) ==>
      r == Some(LessonsData[i + 1])
  {
    CatalogShape();
    var i := FindIndex(LessonsData, moduleNumber, lessonNumber);
    if i == -1 || i == |LessonsData| - 1 then None else Some(LessonsData[i + 1])
  }

  /** getPreviousLesson: the catalog predecessor of (m, l); None for the
      first lesson and for an unknown key. */
  function GetPreviousLesson(moduleNumber: int, lessonNumber: int): (r: Option<LessonData>)
    ensures r.Some? <==> exists i :: 0 < i < |LessonsData| && HasKey(LessonsData[i], moduleNumber, lessonNumber)
    ensures forall i :: 0 < i < |LessonsData| && HasKey(LessonsData[i], moduleNumber, lessonNumber) ==>
      r == Some(LessonsData[i - 1])
  {
    CatalogShape();
    var i := FindIndex(LessonsData, moduleNumber, lessonNumber);
    if i <= 0 then None else Some(LessonsData[i - 1])
  }

  /** The successor in key terms: the next lesson of the same module, else
      lesson 1 of the next module, else nothing after module 7. */
  lemma NextLessonByKey(m: int, l: int)
    requires ValidKey(m, l)
    ensures GetNextLesson(m, l) ==
      if l < |ModuleBlock(m)| then GetLessonData(m, l + 1)
      else if m < 7 then GetLessonData(m + 1, 1)
      else None
  {
    if l < |ModuleBlock(m)| {
      NextWithinModule(m, l);
    } else if m < 7 {
      NextAcrossModules(m);
    } else {
      NextAfterLast();
    }
  }

  lemma NextWithinModule(m: int, l: int)
    requires ValidKey(m, l) && l < |ModuleBlock(m)|
    ensures GetNextLesson(m, l) == GetLessonData(m, l + 1)
  {
    CatalogShape();
    EntryAt(m, l);
    EntryAt(m, l + 1);
  }

  lemma NextAcrossModules(m: int)
    requires 1 <= m < 7
    ensures GetNextLesson(m, |ModuleBlock(m)|) == GetLessonData(m + 1, 1)
  {
    CatalogShape();
    CatalogNumbered();
    EntryAt(m, |ModuleBlock(m)|);
    ModuleStartNext(m);
    EntryAt(m + 1, 1);
  }

  lemma NextAfterLast()
    ensures GetNextLesson(7, 6) == None
  {
    CatalogNumbered();
    CatalogEnd();
    CatalogFindIndex(7, 6);
  }

  /** The last module ends where the catalog ends. */
  lemma CatalogEnd()
    ensures ModuleStart(7) + |ModuleBlock(7)| == |LessonsData|
  {
    CatalogLayout();
    FlattenLength(Blocks);
    OffsetStep(Blocks, 6);
  }

  /** The predecessor in key terms: the previous lesson of the same module,
      else the last lesson of the previous module, else nothing before (1, 1). */
  lemma PreviousLessonByKey(m: int, l: int)
    requires ValidKey(m, l)
    ensures GetPreviousLesson(m, l) ==
      if l > 1 then GetLessonData(m, l - 1)
      else if m > 1 then GetLessonData(m - 1, |ModuleBlock(m - 1)|)
      else None
  {
    if l > 1 {
      PreviousWithinModule(m, l);
    } else if m > 1 {
      PreviousAcrossModules(m);
    } else {
      PreviousBeforeFirst();
    }
  }

  lemma PreviousWithinModule(m: int, l: int)
    requires ValidKey(m, l) && l > 1
    ensures GetPreviousLesson(m, l) == GetLessonData(m, l - 1)
  {
    CatalogShape();
    EntryAt(m, l);
    EntryAt(m, l - 1);
  }

  lemma PreviousAcrossModules(m: int)
    requires 1 < m <= 7
    ensures GetPreviousLesson(m, 1) == GetLessonData(m - 1, |ModuleBlock(m - 1)|)
  {
    CatalogShape();
    CatalogNumbered();
    EntryAt(m, 1);
    ModuleStartNext(m - 1);
    EntryAt(m - 1, |ModuleBlock(m - 1)|);
  }

  lemma PreviousBeforeFirst()
    ensures GetPreviousLesson(1, 1) == None
  {
    CatalogShape();
    CatalogNumbered();
    EntryAt(1, 1);
    assert ModuleStart(1) == 0;
  }

  /** Going forward and then back returns to the same lesson. */
  lemma PreviousUndoesNext(m: int, l: int)
    requires GetNextLesson(m, l).Some?
    ensures var n := GetNextLesson(m, l).value;
      GetPreviousLesson(n.moduleNumber, n.lessonNumber) == GetLessonData(m, l)
  {
    CatalogShape();
    var i :| 0 <= i < |LessonsData| - 1 && HasKey(LessonsData[i], m, l);
    var n := LessonsData[i + 1];
    assert HasKey(LessonsData[i + 1], n.moduleNumber, n.lessonNumber);
  }

  /** Going back and then forward returns to the same lesson. */
  lemma NextUndoesPrevious(m: int, l: int)
    requires GetPreviousLesson(m, l).Some?
    ensures var p := GetPreviousLesson(m, l).value;
      GetNextLesson(p.moduleNumber, p.lessonNumber) == GetLessonData(m, l)
  {
    CatalogShape();
    var i :| 0 < i < |LessonsData| && HasKey(LessonsData[i], m, l);
    var p := LessonsData[i - 1];
    assert HasKey(LessonsData[i - 1], p.moduleNumber, p.lessonNumber);
  }

  /** The ends of the course and a module boundary. */
  lemma NavigationEnds()
    ensures GetPreviousLesson(1, 1) == None
    ensures GetNextLesson(7, 6) == None
    ensures GetNextLesson(1, 8) == GetLessonData(2, 1) && GetLessonData(2, 1).Some?
    ensures GetPreviousLesson(2, 1) == GetLessonData(1, 8) && GetLessonData(1, 8).Some?
  {
    CatalogNumbered();
    PreviousLessonByKey(1, 1);
    NextLessonByKey(7, 6);
    NextLessonByKey(1, 8);
    PreviousLessonByKey(2, 1);
  }

  /** getTotalLessons(moduleNumber?): with a truthy argument the size of that
      module, otherwise (absent or 0) the size of the whole catalog. */
  function GetTotalLessons(moduleNumber: Option<int>): (r: nat)
    ensures (moduleNumber.None? || moduleNumber.value == 0) ==> r == |LessonsData|
    ensures moduleNumber.Some? && moduleNumber.value != 0 ==>
      r == |GetModuleLessons(moduleNumber.value)|
  {
    if moduleNumber.Some? && moduleNumber.value != 0 then |GetModuleLessons(moduleNumber.value)|
    else |LessonsData|
  }

  /** The whole course has 39 lessons, the sum of the seven module sizes;
      an unknown module has none, and 0 counts as "no module given". */
  lemma TotalLessonsSum()
    ensures GetTotalLessons(None) == 39
    ensures GetTotalLessons(None) == GetTotalLessons(Some(1)) + GetTotalLessons(Some(2))
      + GetTotalLessons(Some(3)) + GetTotalLessons(Some(4)) + GetTotalLessons(Some(5))
      + GetTotalLessons(Some(6)) + GetTotalLessons(Some(7))
    ensures GetTotalLessons(Some(0)) == 39
    ensures GetTotalLessons(Some(8)) == 0
  {
    CatalogSize();
    ModuleTotal(1);
    ModuleTotal(2);
    ModuleTotal(3);
    ModuleTotal(4);
    ModuleTotal(5);
    ModuleTotal(6);
    ModuleTotal(7);
    ModuleTotal(8);
  }

  /** The size of module m: 8, 8, 4, 4, 3, 6, 6 for modules 1..7, and 0 for
      a module that does not exist. */
  lemma ModuleTotal(m: int)
    requires m != 0
    ensures 1 <= m <= 7 ==> GetTotalLessons(Some(m)) == [8, 8, 4, 4, 3, 6, 6][m - 1]
    ensures !(1 <= m <= 7) ==> GetTotalLessons(Some(m)) == 0
  {
    CatalogNumbered();
  }

  lemma CatalogSize()
    ensures |LessonsData| == 39
  {
  }

  /** The lessons of `block` whose number appears in `completed`. */
  function CompletedIn(block: seq<LessonData>, completed: seq<int>): (n: nat)
    ensures n <= |block|
  {
    if block == [] then 0
    else (if block[0].lessonNumber in completed then 1 else 0) + CompletedIn(block[1..], completed)
  }

  /** Every lesson of the block is counted exactly when each lesson number
      appears in `completed`. */
  lemma {:induction false} CompletedInAll(block: seq<LessonData>, completed: seq<int>)
    ensures CompletedIn(block, completed) == |block| <==>
      forall k :: 0 <= k < |block| ==> block[k].lessonNumber in completed
  {
    if block != [] {
      CompletedInAll(block[1..], completed);
      assert forall k :: 1 <= k < |block| ==> block[k] == block[1..][k - 1];
    }
  }

  /** The count depends only on which numbers appear, not on order or repeats. */
  lemma {:induction false} CompletedInSameSet(block: seq<LessonData>, a: seq<int>, b: seq<int>)
    requires forall x :: x in a <==> x in b
    ensures CompletedIn(block, a) == CompletedIn(block, b)
  {
    if block != [] {
      CompletedInSameSet(block[1..], a, b);
    }
  }

  /** getModuleProgress: Math.round(completed / total * 100). An empty or
      unknown module divides 0 by 0 and yields NaN, modelled as None. */
  function GetModuleProgress(moduleNumber: int, completedLessons: seq<int>): (r: Option<nat>)
    ensures r.None? <==> |GetModuleLessons(moduleNumber)| == 0
    ensures r.Some? ==> r.value <= 100
    ensures r.Some? ==> IsRoundedPercent(r.value, CompletedIn(GetModuleLessons(moduleNumber), completedLessons),
                                         |GetModuleLessons(moduleNumber)|)
  {
    var block := GetModuleLessons(moduleNumber);
    if |block| == 0 then None
    else
      var c := CompletedIn(block, completedLessons);
      ModuleBlockSmall(moduleNumber);
      RoundPercent(c, |block|);
      PercentIsRounded(c, |block|);
      Some(RoundRatio(100 * c, |block|))
  }

  /** No module has more than eight lessons. */
  lemma ModuleBlockSmall(m: int)
    ensures |ModuleBlock(m)| <= 8
  {
    if 1 <= m <= 7 {
      ModuleSize(m);
    }
  }

  lemma ModuleSize(m: int)
    requires 1 <= m <= 7
    ensures 3 <= |ModuleBlock(m)| <= 8
  {
    CatalogNumbered();
  }

  /** In a block numbered 1..n, "all counted" and "none counted" read as
      statements about the lesson numbers 1..n themselves. */
  lemma NumberedCompleted(block: seq<LessonData>, completed: seq<int>)
    requires forall k :: 0 <= k < |block| ==> block[k].lessonNumber == k + 1
    ensures CompletedIn(block, completed) == |block| <==>
      forall l :: 1 <= l <= |block| ==> l in completed
    ensures CompletedIn(block, completed) == 0 <==>
      forall l :: 1 <= l <= |block| ==> l !in completed
  {
    CompletedInAll(block, completed);
    CompletedInNone(block, completed);
    var n := |block|;
    if forall l :: 1 <= l <= n ==> l in completed {
      forall k | 0 <= k < n ensures block[k].lessonNumber in completed {
        assert k + 1 in completed;
      }
    }
    if forall k :: 0 <= k < n ==> block[k].lessonNumber in completed {
      forall l | 1 <= l <= n ensures l in completed {
        assert block[l - 1].lessonNumber in completed;
      }
    }
    if forall l :: 1 <= l <= n ==> l !in completed {
      forall k | 0 <= k < n ensures block[k].lessonNumber !in completed {
        assert k + 1 !in completed;
      }
    }
    if forall k :: 0 <= k < n ==> block[k].lessonNumber !in completed {
      forall l | 1 <= l <= n ensures l !in completed {
        assert block[l - 1].lessonNumber !in completed;
      }
    }
  }

  /** For a catalog module, the progress reads 100 exactly when every lesson
      number 1..n of it is marked completed, and 0 exactly when none is. */
  lemma ModuleProgressFullIffAllCompleted(m: int, completedLessons: seq<int>)
    requires 1 <= m <= 7
    ensures GetModuleProgress(m, completedLessons) == Some(100) <==>
      forall l :: 1 <= l <= |ModuleBlock(m)| ==> l in completedLessons
    ensures GetModuleProgress(m, completedLessons) == Some(0) <==>
      forall l :: 1 <= l <= |ModuleBlock(m)| ==> l !in completedLessons
  {
    var block := GetModuleLessons(m);
    ModuleSize(m);
    NumberedCompleted(block, completedLessons);
    RoundPercent(CompletedIn(block, completedLessons), |block|);
  }

  /** No lesson of the block is counted exactly when no number appears. */
  lemma {:induction false} CompletedInNone(block: seq<LessonData>, completed: seq<int>)
    ensures CompletedIn(block, completed) == 0 <==>
      forall k :: 0 <= k < |block| ==> block[k].lessonNumber !in completed
  {
    if block != [] {
      CompletedInNone(block[1..], completed);
      assert forall k :: 1 <= k < |block| ==> block[k] == block[1..][k - 1];
    }
  }
}
