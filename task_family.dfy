/** The task-definition family of an ARN, as `ServiceUpdater` computes it:
    `re.findall(r".+\/(.+)\:\d+?", arn)`.

    Python's `.` matches every character except a line break, so a match
    never crosses one. Within one line, backtracking makes the leading
    greedy `.+` stop at the LAST slash that can still be followed by a
    non-empty group, a colon and a digit, and the greedy group then runs to
    the LAST colon that is followed by a digit; the lazy `\d+?` takes a
    single digit. After that match nothing later in the line can match
    again, so `findall` yields at most one group per line. */
module TaskFamily {
  import opened Wrappers
  import Text

  /** Position `q` is a colon followed by a digit: where `\:\d+?` matches. */
  predicate RevisionColonAt(line: string, q: nat) {
    q + 1 < |line| && line[q] == ':' && Text.IsDigit(line[q + 1])
  }

  /** A way for the whole pattern to match a line from its start: the slash
      at `p` (with at least one character before it) and the colon at `q`
      (with a non-empty group between them). */
  predicate IsMatch(line: string, p: nat, q: nat) {
    1 <= p && p + 2 <= q && RevisionColonAt(line, q) && line[p] == '/'
  }

  /** The last revision colon strictly before `hi`. */
  function LastRevisionColonBelow(line: string, hi: nat): (r: Option<nat>)
    requires hi <= |line|
    ensures r.Some? ==> r.value < hi && RevisionColonAt(line, r.value)
    ensures r.Some? ==> forall j :: r.value < j < hi ==> !RevisionColonAt(line, j)
    ensures r.None? ==> forall j :: 0 <= j < hi ==> !RevisionColonAt(line, j)
    decreases hi
  {
    if hi == 0 then None
    else if RevisionColonAt(line, hi - 1) then Some(hi - 1)
    else LastRevisionColonBelow(line, hi - 1)
  }

  /** The last slash strictly before `hi`, not counting position 0 (the
      leading `.+` needs at least one character). */
  function LastSlashBelow(line: string, hi: nat): (r: Option<nat>)
    requires hi <= |line|
    ensures r.Some? ==> 1 <= r.value < hi && line[r.value] == '/'
    ensures r.Some? ==> forall j :: r.value < j < hi ==> line[j] != '/'
    ensures r.None? ==> forall j :: 1 <= j < hi ==> line[j] != '/'
    decreases hi
  {
    if hi <= 1 then None
    else if line[hi - 1] == '/' then Some(hi - 1)
    else LastSlashBelow(line, hi - 1)
  }

  /** The group captured in one line without line breaks: the match that
      backtracking tries first, i.e. the one with the largest slash
      position and, for that slash, the largest colon position. */
  function LineFamily(line: string): Option<string> {
    match LastRevisionColonBelow(line, |line|)
    case None => None
    case Some(q) =>
      if q == 0 then None
      else match LastSlashBelow(line, q - 1)
        case None => None
        case Some(p) => Some(line[p + 1..q])
  }

  /** `LineFamily` is the regular expression's semantics: no group when no
      match exists, and otherwise the group of the match that backtracking
      reaches first. */
  lemma LineFamilyIsFirstMatch(line: string)
    ensures LineFamily(line).None? ==> forall p: nat, q: nat :: !IsMatch(line, p, q)
    ensures LineFamily(line).Some? ==>
      exists p: nat, q: nat :: IsMatch(line, p, q) && LineFamily(line).value == line[p + 1..q] &&
        forall p': nat, q': nat :: IsMatch(line, p', q') ==> p' < p || (p' == p && q' <= q)
  {
    match LastRevisionColonBelow(line, |line|)
    case None =>
    case Some(q) =>
      if q > 0 {
        match LastSlashBelow(line, q - 1)
        case None =>
        case Some(p) =>
          assert IsMatch(line, p, q);
      }
  }

  function AsList(r: Option<string>): seq<string> {
    if r.Some? then [r.value] else []
  }

  /** `re.findall(r".+\/(.+)\:\d+?", s)`: one group per line that matches,
      lines taken in order. */
  function FindAll(s: string): seq<string>
    decreases |s|
  {
    match Text.FirstIndexOf(s, '\n')
    case None => AsList(LineFamily(s))
    case Some(i) => AsList(LineFamily(s[..i])) + FindAll(s[i + 1..])
  }

  /** The family of `prefix/family:revision` is `family`, for a non-empty
      prefix, a family without slashes, and a revision of digits (nothing
      with a line break). */
  lemma FamilyOfRevisionedArn(prefix: string, family: string, revision: string)
    requires prefix != [] && family != [] && revision != []
    requires '/' !in family && '\n' !in prefix && '\n' !in family
    requires forall i :: 0 <= i < |revision| ==> Text.IsDigit(revision[i])
    ensures FindAll(prefix + "/" + family + ":" + revision) == [family]
  {
    var s := prefix + "/" + family + ":" + revision;
    ArnLayout(prefix, family, revision);
    var p0, q0 := |prefix|, |prefix| + 1 + |family|;
    assert IsMatch(s, p0, q0);
    LineFamilyAt(s, p0, q0);
    assert LineFamily(s) == Some(s[p0 + 1..q0]);
    assert s[p0 + 1..q0] == family;
    assert LineFamily(s) == Some(family);
    SingleLine(s);
    assert FindAll(s) == [family];
  }

  /** Text without a line break is matched as one line. */
  lemma SingleLine(s: string)
    requires '\n' !in s
    ensures FindAll(s) == AsList(LineFamily(s))
  {
    assert Text.FirstIndexOf(s, '\n').None?;
  }

  /** The group is fixed once the last revision colon and the last slash
      before it are known. */
  lemma LineFamilyAt(line: string, p: nat, q: nat)
    requires IsMatch(line, p, q)
    requires forall j :: q < j < |line| ==> !RevisionColonAt(line, j)
    requires forall j :: p < j < q - 1 ==> line[j] != '/'
    ensures LineFamily(line) == Some(line[p + 1..q])
  {
  }

  /** Where each part of `prefix/family:revision` sits. */
  lemma ArnLayout(prefix: string, family: string, revision: string)
    requires prefix != [] && family != [] && revision != []
    requires '/' !in family && '\n' !in prefix && '\n' !in family
    requires forall i :: 0 <= i < |revision| ==> Text.IsDigit(revision[i])
    ensures var s := prefix + "/" + family + ":" + revision;
      var p0, q0 := |prefix|, |prefix| + 1 + |family|;
      && '\n' !in s
      && s[p0] == '/' && s[q0] == ':' && RevisionColonAt(s, q0)
      && (forall j :: q0 < j < |s| ==> !RevisionColonAt(s, j))
      && (forall j :: p0 < j < q0 ==> s[j] != '/')
      && s[p0 + 1..q0] == family
  {
    var s := prefix + "/" + family + ":" + revision;
    var p0, q0 := |prefix|, |prefix| + 1 + |family|;
    assert s == (prefix + "/" + family + ":") + revision;
    forall i | 0 <= i < |s| ensures s[i] != '\n' {
      if i < p0 {
        assert s[i] == prefix[i];
      } else if p0 < i < q0 {
        assert s[i] == family[i - p0 - 1];
      } else if q0 < i {
        assert s[i] == revision[i - q0 - 1];
      }
    }
    assert s[q0 + 1] == revision[0];
    forall j | q0 < j < |s| ensures !RevisionColonAt(s, j) {
      assert s[j] == revision[j - q0 - 1];
    }
    forall j | p0 < j < q0 ensures s[j] != '/' {
      assert s[j] == family[j - p0 - 1];
    }
  }

  /** Two revisions of one task definition belong to the same family, so
      `ServiceUpdater` treats them alike. */
  lemma SameFamilyAcrossRevisions(prefix: string, family: string, rev1: string, rev2: string)
    requires prefix != [] && family != [] && rev1 != [] && rev2 != []
    requires '/' !in family && '\n' !in prefix && '\n' !in family
    requires forall i :: 0 <= i < |rev1| ==> Text.IsDigit(rev1[i])
    requires forall i :: 0 <= i < |rev2| ==> Text.IsDigit(rev2[i])
    ensures FindAll(prefix + "/" + family + ":" + rev1) == FindAll(prefix + "/" + family + ":" + rev2) == [family]
  {
    FamilyOfRevisionedArn(prefix, family, rev1);
    FamilyOfRevisionedArn(prefix, family, rev2);
  }

  /** A string without a colon (such as the "N/A" that a dry run registers)
      has no family at all: `findall` returns the empty list. */
  lemma {:induction false} NoColonNoFamily(s: string)
    requires ':' !in s
    ensures FindAll(s) == []
    decreases |s|
  {
    var next := Text.FirstIndexOf(s, '\n');
    if next.None? {
      NoColonNoLineFamily(s);
    } else {
      var i := next.value;
      var line, rest := s[..i], s[i + 1..];
      NoColonInSlice(s, 0, i);
      NoColonNoLineFamily(line);
      NoColonInSlice(s, i + 1, |s|);
      assert s[i + 1..|s|] == rest;
      NoColonNoFamily(rest);
      SkipLineWithoutFamily(s, i);
    }
  }

  /** A line without a family adds nothing to `findall`. */
  lemma SkipLineWithoutFamily(s: string, i: nat)
    requires Text.FirstIndexOf(s, '\n') == Some(i) && LineFamily(s[..i]).None?
    ensures FindAll(s) == FindAll(s[i + 1..])
  {
  }

  /** A line without a colon has no revision colon, so no family. */
  lemma NoColonNoLineFamily(line: string)
    requires ':' !in line
    ensures LineFamily(line).None?
  {
    assert LastRevisionColonBelow(line, |line|).None?;
  }

  /** A piece of a string without a colon has none either. */
  lemma NoColonInSlice(s: string, lo: nat, hi: nat)
    requires ':' !in s && lo <= hi <= |s|
    ensures ':' !in s[lo..hi]
  {
    forall j | 0 <= j < hi - lo ensures s[lo..hi][j] != ':' {
      assert s[lo..hi][j] == s[lo + j];
    }
  }

  /** The ARN from the registration test,
      "arn:aws:ecs:eu-west-1:327376576235:task-definition/ecs-test-web:36",
      written here in pieces, has family "ecs-test-web". */
  lemma RegisteredArnFamily()
    ensures FindAll("arn:aws:ecs:eu-west-1" + ":327376576235" + ":task-definition"
                    + "/" + "ecs-test-web" + ":" + "36") == ["ecs-test-web"]
  {
    var prefix := "arn:aws:ecs:eu-west-1" + ":327376576235" + ":task-definition";
    assert '\n' !in "arn:aws:ecs:eu-west-1" && '\n' !in ":327376576235" && '\n' !in ":task-definition";
    assert '/' !in "ecs-test-web" && '\n' !in "ecs-test-web";
    FamilyOfRevisionedArn(prefix, "ecs-test-web", "36");
  }
}
