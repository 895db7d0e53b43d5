/**
 * The `seed_courses` management command: for each course of a fixed catalog,
 * `Course.objects.get_or_create` by title, creating an active course when no
 * course carries the title, keeping the existing one when exactly one does,
 * and stopping with MultipleObjectsReturned when several do. Courses created
 * before such a stop stay in the table.
 */
module SeedCourses {
  import opened Wrappers
  import opened Models
  import opened Queries
  import Views

  /** One catalog line: title, description and price in paise. */
  datatype SeedEntry = SeedEntry(title: string, description: string, priceInPaise: nat)

  const Catalog: seq<SeedEntry> := [
    SeedEntry("JavaScript Essentials", "Master JS fundamentals.", 79900),
    SeedEntry("React for Beginners", "Build UIs with React.", 109900),
    SeedEntry("Advanced React", "Hooks, context, performance.", 129900),
    SeedEntry("Node.js API Development", "Build REST APIs.", 99900),
    SeedEntry("Full-Stack Django", "End-to-end Django apps.", 119900),
    SeedEntry("Data Structures in Python", "DS and algorithms.", 89900),
    SeedEntry("Algorithms Mastery", "Problem solving patterns.", 99900),
    SeedEntry("SQL & Databases", "Relational DB basics.", 69900),
    SeedEntry("PostgreSQL Deep Dive", "Indexes, queries, tuning.", 99900),
    SeedEntry("Git & GitHub", "Version control workflow.", 49900),
    SeedEntry("Docker Basics", "Containerize your apps.", 79900),
    SeedEntry("Kubernetes Intro", "Orchestrate containers.", 129900),
    SeedEntry("Linux for Devs", "CLI skills for developers.", 59900),
    SeedEntry("AWS Foundations", "Core AWS services.", 119900),
    SeedEntry("GCP Foundations", "Core GCP services.", 119900),
    SeedEntry("Azure Foundations", "Core Azure services.", 119900),
    SeedEntry("REST API Design", "Best practices & patterns.", 89900),
    SeedEntry("Testing in Django", "Unit, integration, pytest.", 79900),
    SeedEntry("Async Python", "asyncio, aiohttp basics.", 99900),
    SeedEntry("System Design Basics", "Scale and reliability.", 139900)
  ]

  /** The course get_or_create builds from a catalog line: its title plus the defaults. */
  function SeedCourse(e: SeedEntry): Course {
    Course(e.title, e.description, e.priceInPaise, true)
  }

  /** What the command ends with: the count it reports, or the exception a duplicated title raises. */
  datatype SeedOutcome = Seeded(createdCount: nat) | MultipleObjectsReturned(title: string)

  /** The state after the command went over some catalog lines: the course table, its next id, the count so far, and the title it stopped at, if any. */
  datatype SeedRun = SeedRun(courses: map<CourseId, Course>, nextId: CourseId, createdCount: nat, failure: Option<string>)

  /** The loop of the command, line by line, from the given state: a title no course carries gets a new course, a title carried once is kept, a title carried more than once stops the run. */
  ghost function Seed(courses: map<CourseId, Course>, nextId: CourseId, created: nat, entries: seq<SeedEntry>): SeedRun
    decreases |entries|
  {
    if entries == [] then SeedRun(courses, nextId, created, None)
    else
      var e := entries[0];
      var found := TitleIds(courses, e.title);
      if |found| == 0 then Seed(courses[nextId := SeedCourse(e)], nextId + 1, created + 1, entries[1..])
      else if |found| == 1 then Seed(courses, nextId, created, entries[1..])
      else SeedRun(courses, nextId, created, Some(e.title))
  }

  /** The titles of the lines that no course carries. */
  ghost function MissingTitles(courses: map<CourseId, Course>, entries: seq<SeedEntry>): set<string> {
    set i | 0 <= i < |entries| && TitleIds(courses, entries[i].title) == {} :: entries[i].title
  }

  /** Adding a course at the next id adds that id to the ids of its own title and to no other. */
  lemma AddCourseTitles(courses: map<CourseId, Course>, nextId: CourseId, c: Course, t: string)
    requires forall id :: id in courses ==> id < nextId
    ensures TitleIds(courses[nextId := c], t) == TitleIds(courses, t) + (if c.title == t then {nextId} else {})
    ensures nextId !in TitleIds(courses, t)
  {
    assert TitleIds(courses[nextId := c], t) == TitleIds(courses, t) + (if c.title == t then {nextId} else {});
  }

  /** The run keeps every existing course, keeps ids below the next id, and counts exactly the ids it used. */
  lemma {:induction false} SeedGrows(courses: map<CourseId, Course>, nextId: CourseId, created: nat, entries: seq<SeedEntry>)
    requires forall id :: id in courses ==> id < nextId
    ensures var r := Seed(courses, nextId, created, entries);
      (forall id :: id in courses ==> id in r.courses && r.courses[id] == courses[id])
      && (forall id :: id in r.courses ==> id < r.nextId)
      && nextId <= r.nextId && r.createdCount == created + (r.nextId - nextId)
    decreases |entries|
  {
    if entries != [] {
      var e := entries[0];
      if |TitleIds(courses, e.title)| == 0 {
        SeedGrows(courses[nextId := SeedCourse(e)], nextId + 1, created + 1, entries[1..]);
      } else if |TitleIds(courses, e.title)| == 1 {
        SeedGrows(courses, nextId, created, entries[1..]);
      }
    }
  }

  /** Every course the run creates sits at a fresh id and is built from one of the lines. */
  lemma {:induction false} SeedCreatesFromLines(courses: map<CourseId, Course>, nextId: CourseId, created: nat,
                                                entries: seq<SeedEntry>, id: CourseId)
    requires forall id :: id in courses ==> id < nextId
    requires id in Seed(courses, nextId, created, entries).courses && id !in courses
    ensures nextId <= id
    ensures exists i :: 0 <= i < |entries| && Seed(courses, nextId, created, entries).courses[id] == SeedCourse(entries[i])
    decreases |entries|
  {
    var e := entries[0];
    var rest := entries[1..];
    var r := Seed(courses, nextId, created, entries);
    if |TitleIds(courses, e.title)| == 0 {
      var courses' := courses[nextId := SeedCourse(e)];
      SeedGrows(courses', nextId + 1, created + 1, rest);
      if id == nextId {
        assert r.courses[id] == SeedCourse(entries[0]);
      } else {
        SeedCreatesFromLines(courses', nextId + 1, created + 1, rest, id);
        var i :| 0 <= i < |rest| && r.courses[id] == SeedCourse(rest[i]);
        assert rest[i] == entries[i + 1];
      }
    } else {
      SeedCreatesFromLines(courses, nextId, created, rest, id);
      var i :| 0 <= i < |rest| && r.courses[id] == SeedCourse(rest[i]);
      assert rest[i] == entries[i + 1];
    }
  }

  /** The run leaves the ids of a title carried by exactly one course as they were. */
  lemma {:induction false} SeedKeepsSingleTitles(courses: map<CourseId, Course>, nextId: CourseId, created: nat,
                                                 entries: seq<SeedEntry>, t: string)
    requires forall id :: id in courses ==> id < nextId
    requires |TitleIds(courses, t)| == 1
    ensures TitleIds(Seed(courses, nextId, created, entries).courses, t) == TitleIds(courses, t)
    decreases |entries|
  {
    if entries != [] {
      var e := entries[0];
      if |TitleIds(courses, e.title)| == 0 {
        AddCourseTitles(courses, nextId, SeedCourse(e), t);
        SeedKeepsSingleTitles(courses[nextId := SeedCourse(e)], nextId + 1, created + 1, entries[1..], t);
      } else if |TitleIds(courses, e.title)| == 1 {
        SeedKeepsSingleTitles(courses, nextId, created, entries[1..], t);
      }
    }
  }

  /** Creating the course of a title no course carries: that title is now carried once, every other title as before. */
  lemma AddMissingTitle(courses: map<CourseId, Course>, nextId: CourseId, e: SeedEntry, t: string)
    requires forall id :: id in courses ==> id < nextId
    requires TitleIds(courses, e.title) == {}
    ensures t == e.title ==> TitleIds(courses[nextId := SeedCourse(e)], t) == {nextId}
    ensures t != e.title ==> TitleIds(courses[nextId := SeedCourse(e)], t) == TitleIds(courses, t)
  {
    AddCourseTitles(courses, nextId, SeedCourse(e), t);
  }

  /**
   * The run finishes exactly when no line's title is carried by more than one
   * course beforehand, and a stop names a line's title carried by several
   * courses.
   */
  lemma {:induction false} SeedFinishesIff(courses: map<CourseId, Course>, nextId: CourseId, created: nat,
                                           entries: seq<SeedEntry>)
    requires forall id :: id in courses ==> id < nextId
    ensures var r := Seed(courses, nextId, created, entries);
      (r.failure.None? <==> forall i :: 0 <= i < |entries| ==> |TitleIds(courses, entries[i].title)| <= 1)
      && (r.failure.Some? ==> exists i :: 0 <= i < |entries| && entries[i].title == r.failure.value
                                          && |TitleIds(courses, r.failure.value)| >= 2)
    decreases |entries|
  {
    if entries != [] {
      var e := entries[0];
      var rest := entries[1..];
      assert forall i :: 0 <= i < |rest| ==> rest[i] == entries[i + 1];
      if |TitleIds(courses, e.title)| == 0 {
        var courses' := courses[nextId := SeedCourse(e)];
        forall t ensures |TitleIds(courses', t)| <= 1 <==> |TitleIds(courses, t)| <= 1
          ensures |TitleIds(courses', t)| >= 2 ==> TitleIds(courses', t) == TitleIds(courses, t)
        {
          AddMissingTitle(courses, nextId, e, t);
        }
        SeedFinishesIff(courses', nextId + 1, created + 1, rest);
      } else if |TitleIds(courses, e.title)| == 1 {
        SeedFinishesIff(courses, nextId, created, rest);
      }
    }
  }

  /** A finished run has created one course per distinct title of the lines that no course carried. */
  lemma {:induction false} SeedCountsMissing(courses: map<CourseId, Course>, nextId: CourseId, created: nat,
                                             entries: seq<SeedEntry>)
    requires forall id :: id in courses ==> id < nextId
    ensures var r := Seed(courses, nextId, created, entries);
      r.failure.None? ==> r.createdCount == created + |MissingTitles(courses, entries)|
    decreases |entries|
  {
    if entries != [] {
      var e := entries[0];
      var rest := entries[1..];
      assert forall i :: 0 <= i < |rest| ==> rest[i] == entries[i + 1];
      if |TitleIds(courses, e.title)| == 0 {
        var courses' := courses[nextId := SeedCourse(e)];
        forall t ensures t == e.title ==> TitleIds(courses', t) == {nextId}
          ensures t != e.title ==> TitleIds(courses', t) == TitleIds(courses, t)
        {
          AddMissingTitle(courses, nextId, e, t);
        }
        assert MissingTitles(courses, entries) == {e.title} + MissingTitles(courses', rest) by {
          forall t | t in MissingTitles(courses, entries) ensures t in {e.title} + MissingTitles(courses', rest) {
            var i :| 0 <= i < |entries| && TitleIds(courses, entries[i].title) == {} && entries[i].title == t;
            if t != e.title {
              assert entries[i] == rest[i - 1];
            }
          }
        }
        assert e.title !in MissingTitles(courses', rest);
        SeedCountsMissing(courses', nextId + 1, created + 1, rest);
      } else if |TitleIds(courses, e.title)| == 1 {
        assert MissingTitles(courses, entries) == MissingTitles(courses, rest) by {
          forall t | t in MissingTitles(courses, entries) ensures t in MissingTitles(courses, rest) {
            var i :| 0 <= i < |entries| && TitleIds(courses, entries[i].title) == {} && entries[i].title == t;
            assert i != 0;
            assert entries[i] == rest[i - 1];
          }
        }
        SeedCountsMissing(courses, nextId, created, rest);
      }
    }
  }

  /** After a finished run every line's title is carried by exactly one course. */
  lemma {:induction false} SeedCoversLines(courses: map<CourseId, Course>, nextId: CourseId, created: nat,
                                           entries: seq<SeedEntry>)
    requires forall id :: id in courses ==> id < nextId
    ensures var r := Seed(courses, nextId, created, entries);
      r.failure.None? ==> forall i :: 0 <= i < |entries| ==> |TitleIds(r.courses, entries[i].title)| == 1
    decreases |entries|
  {
    if entries != [] {
      var e := entries[0];
      var rest := entries[1..];
      assert forall i :: 0 <= i < |rest| ==> rest[i] == entries[i + 1];
      if |TitleIds(courses, e.title)| == 0 {
        var courses' := courses[nextId := SeedCourse(e)];
        AddMissingTitle(courses, nextId, e, e.title);
        SeedCoversLines(courses', nextId + 1, created + 1, rest);
        SeedKeepsSingleTitles(courses', nextId + 1, created + 1, rest, e.title);
      } else if |TitleIds(courses, e.title)| == 1 {
        SeedCoversLines(courses, nextId, created, rest);
        SeedKeepsSingleTitles(courses, nextId, created, rest, e.title);
      }
    }
  }

  /** When every line's title is carried by exactly one course, the run creates nothing and finishes. */
  lemma {:induction false} SeedNothingMissing(courses: map<CourseId, Course>, nextId: CourseId, created: nat,
                                              entries: seq<SeedEntry>)
    requires forall id :: id in courses ==> id < nextId
    requires forall i :: 0 <= i < |entries| ==> |TitleIds(courses, entries[i].title)| == 1
    ensures Seed(courses, nextId, created, entries) == SeedRun(courses, nextId, created, None)
  {
    if entries != [] {
      assert forall i :: 0 <= i < |entries[1..]| ==> entries[1..][i] == entries[i + 1];
      SeedNothingMissing(courses, nextId, created, entries[1..]);
    }
  }

  /** Seeding twice: a second run after a finished one creates nothing, reports 0 and leaves the table alone. */
  lemma SeedIsIdempotent(courses: map<CourseId, Course>, nextId: CourseId)
    requires forall id :: id in courses ==> id < nextId
    ensures var first := Seed(courses, nextId, 0, Catalog);
      first.failure.None? ==>
        Seed(first.courses, first.nextId, 0, Catalog) == SeedRun(first.courses, first.nextId, 0, None)
  {
    var first := Seed(courses, nextId, 0, Catalog);
    SeedGrows(courses, nextId, 0, Catalog);
    SeedCoversLines(courses, nextId, 0, Catalog);
    if first.failure.None? {
      SeedNothingMissing(first.courses, first.nextId, 0, Catalog);
    }
  }

  /**
   * The loop of handle over the given lines: get_or_create by title, creating
   * a course at the next id when the title is free, and stopping at the first
   * title carried by several courses. Other tables are untouched.
   */
  method GetOrCreateAll(shop: Views.Shop, entries: seq<SeedEntry>) returns (r: SeedOutcome)
    requires shop.Valid()
    modifies shop
    ensures shop.Valid()
    ensures shop.txns == old(shop.txns) && shop.nextTxnId == old(shop.nextTxnId) && shop.profiles == old(shop.profiles)
    ensures var run := Seed(old(shop.courses), old(shop.nextCourseId), 0, entries);
      shop.courses == run.courses && shop.nextCourseId == run.nextId
      && r == (if run.failure.None? then Seeded(run.createdCount) else MultipleObjectsReturned(run.failure.value))
  {
    ghost var run := Seed(shop.courses, shop.nextCourseId, 0, entries);
    SeedGrows(shop.courses, shop.nextCourseId, 0, entries);
    var courses, nextId, createdCount := shop.courses, shop.nextCourseId, 0;
    var failure: Option<string> := None;
    for i := 0 to |entries|
      invariant forall id :: id in courses ==> id < nextId
      invariant Seed(courses, nextId, createdCount, entries[i..]) == run
      invariant failure.None?
      modifies {}
    {
      var e := entries[i];
      assert entries[i..][0] == e && entries[i..][1..] == entries[i + 1..];
      var found := TitleMatches(courses, e.title, nextId);
      TitleMatchesCount(courses, e.title, nextId);
      if |found| == 0 {
        courses, nextId, createdCount := courses[nextId := SeedCourse(e)], nextId + 1, createdCount + 1;
      } else if |found| >= 2 {
        failure := Some(e.title);
        break;
      }
    }
    shop.courses, shop.nextCourseId := courses, nextId;
    r := if failure.None? then Seeded(createdCount) else MultipleObjectsReturned(failure.value);
  }

  /** handle: get_or_create over the catalog. */
  method Handle(shop: Views.Shop) returns (r: SeedOutcome)
    requires shop.Valid()
    modifies shop
    ensures shop.Valid()
    ensures shop.txns == old(shop.txns) && shop.nextTxnId == old(shop.nextTxnId) && shop.profiles == old(shop.profiles)
    ensures var run := Seed(old(shop.courses), old(shop.nextCourseId), 0, Catalog);
      shop.courses == run.courses && shop.nextCourseId == run.nextId
      && r == (if run.failure.None? then Seeded(run.createdCount) else MultipleObjectsReturned(run.failure.value))
  {
    r := GetOrCreateAll(shop, Catalog);
  }
}
