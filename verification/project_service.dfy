/** Project creation: request validation, the key derived from a project
    name, the collision loop that makes the key unique, and the project and
    membership rows `createProject` writes. */
module ProjectService {
  import opened Wrappers
  import opened Text
  import opened Domain

  /** One requested member: a user id and the role inside the project. */
  datatype MemberEntry = MemberEntry(userId: Option<nat>, role: Option<UserRole>)

  datatype CreateProjectDto = CreateProjectDto(
    name: Option<string>,
    description: Option<string>,
    members: Option<seq<MemberEntry>>)

  const MaxNameLength: nat := 200
  const MaxKeyLength: nat := 10

  /** `Integer.MAX_VALUE`: the last value the `int` counter of the collision
      loop reaches before it wraps. */
  const IntMax: nat := 0x7FFF_FFFF

  const MsgDataRequired := "Project data is required"
  const MsgNameRequired := "Project name is required"
  const MsgNameTooLong := "Project name must not exceed 200 characters"
  const MsgMembersRequired := "At least one project member with role is required"
  const MsgUserIdRequired := "User ID is required for all members"
  const MsgRoleRequired := "Role is required for all members"
  const MsgDuplicatePrefix := "Duplicate user ID found: "
  const MsgUserNotFoundPrefix := "User not found with ID: "

  // ---------------------------------------------------------------- validation

  /** Every entry names a user and a role. */
  predicate EntriesComplete(ms: seq<MemberEntry>) {
    forall i :: 0 <= i < |ms| ==> ms[i].userId.Some? && ms[i].role.Some?
  }

  /** No user id is requested twice. */
  predicate DistinctIds(ms: seq<MemberEntry>) {
    forall i, j :: 0 <= i < j < |ms| ==> ms[i].userId != ms[j].userId
  }

  /** What a request must satisfy for `validateProjectDTO` to return normally. */
  predicate ValidDto(dto: Option<CreateProjectDto>) {
    && dto.Some?
    && dto.value.name.Some?
    && JavaTrim(dto.value.name.value) != []
    && Utf16Length(dto.value.name.value) <= MaxNameLength
    && dto.value.members.Some?
    && |dto.value.members.value| > 0
    && EntriesComplete(dto.value.members.value)
    && DistinctIds(dto.value.members.value)
  }

  /** The member loop of `validateProjectDTO`, with `seen` the ids met so far.
      It stops at the first incomplete entry or repeated id. */
  function CheckMembers(ms: seq<MemberEntry>, seen: set<nat>): (r: Result<(), Error>)
    ensures r.Success? <==>
      && EntriesComplete(ms)
      && DistinctIds(ms)
      && forall i :: 0 <= i < |ms| && ms[i].userId.Some? ==> ms[i].userId.value !in seen
    ensures r.Failure? ==>
      r.error in {IllegalArgument(MsgUserIdRequired), IllegalArgument(MsgRoleRequired)}
      || (exists i :: 0 <= i < |ms| && ms[i].userId.Some?
            && r.error == IllegalArgument(MsgDuplicatePrefix + NatToString(ms[i].userId.value)))
  {
    if |ms| == 0 then Success(())
    else if ms[0].userId.None? then Failure(IllegalArgument(MsgUserIdRequired))
    else if ms[0].role.None? then Failure(IllegalArgument(MsgRoleRequired))
    else if ms[0].userId.value in seen then
      Failure(IllegalArgument(MsgDuplicatePrefix + NatToString(ms[0].userId.value)))
    else
      var rest := CheckMembers(ms[1..], seen + {ms[0].userId.value});
      assert forall i :: 1 <= i < |ms| ==> ms[i] == ms[1..][i - 1];
      rest
  }

  /** The user ids named by the entries. */
  function IdsOf(ms: seq<MemberEntry>): set<nat> {
    if |ms| == 0 then {}
    else (if ms[0].userId.Some? then {ms[0].userId.value} else {}) + IdsOf(ms[1..])
  }

  /** An entry the loop accepts when the ids in `seen` were met before it. */
  predicate EntryOk(m: MemberEntry, seen: set<nat>) {
    m.userId.Some? && m.role.Some? && m.userId.value !in seen
  }

  /** The error the loop raises for an entry it does not accept: a missing
      id is reported before a missing role, and a repeated id names itself. */
  function EntryError(m: MemberEntry, seen: set<nat>): Error
    requires !EntryOk(m, seen)
  {
    if m.userId.None? then IllegalArgument(MsgUserIdRequired)
    else if m.role.None? then IllegalArgument(MsgRoleRequired)
    else IllegalArgument(MsgDuplicatePrefix + NatToString(m.userId.value))
  }

  /** The first entry the loop does not accept decides the error, whatever
      follows it. */
  lemma {:induction false} FirstBadEntryDecides(ms: seq<MemberEntry>, seen: set<nat>, k: nat)
    requires k < |ms|
    requires forall j :: 0 <= j < k ==> EntryOk(ms[j], seen + IdsOf(ms[..j]))
    requires !EntryOk(ms[k], seen + IdsOf(ms[..k]))
    ensures CheckMembers(ms, seen) == Failure(EntryError(ms[k], seen + IdsOf(ms[..k])))
  {
    assert ms[..0] == [];
    if k > 0 {
      assert EntryOk(ms[0], seen + IdsOf(ms[..0]));
      var seen' := seen + {ms[0].userId.value};
      forall j | 0 <= j <= k - 1
        ensures seen' + IdsOf(ms[1..][..j]) == seen + IdsOf(ms[..j + 1])
      {
        assert ms[..j + 1][1..] == ms[1..][..j];
      }
      forall j | 0 <= j < k - 1
        ensures EntryOk(ms[1..][j], seen' + IdsOf(ms[1..][..j]))
      {
        assert EntryOk(ms[j + 1], seen + IdsOf(ms[..j + 1]));
      }
      FirstBadEntryDecides(ms[1..], seen', k - 1);
    }
  }

  /** `validateProjectDTO`: the checks run in source order, and the request
      passes exactly when it is `ValidDto`. */
  function ValidateProjectDto(dto: Option<CreateProjectDto>): (r: Result<(), Error>)
    ensures r.Success? <==> ValidDto(dto)
    ensures dto.None? ==> r == Failure(IllegalArgument(MsgDataRequired))
    ensures dto.Some? && (dto.value.name.None? || JavaTrim(dto.value.name.value) == []) ==>
      r == Failure(IllegalArgument(MsgNameRequired))
    ensures (dto.Some? && dto.value.name.Some? && JavaTrim(dto.value.name.value) != []
             && Utf16Length(dto.value.name.value) > MaxNameLength) ==>
      r == Failure(IllegalArgument(MsgNameTooLong))
    ensures (dto.Some? && dto.value.name.Some? && JavaTrim(dto.value.name.value) != []
             && Utf16Length(dto.value.name.value) <= MaxNameLength
             && (dto.value.members.None? || |dto.value.members.value| == 0)) ==>
      r == Failure(IllegalArgument(MsgMembersRequired))
    ensures (dto.Some? && dto.value.name.Some? && JavaTrim(dto.value.name.value) != []
             && Utf16Length(dto.value.name.value) <= MaxNameLength
             && dto.value.members.Some? && |dto.value.members.value| > 0) ==>
      r == CheckMembers(dto.value.members.value, {})
    ensures r.Failure? ==> r.error.IllegalArgument?
  {
    if dto.None? then Failure(IllegalArgument(MsgDataRequired))
    else if dto.value.name.None? || JavaTrim(dto.value.name.value) == [] then
      Failure(IllegalArgument(MsgNameRequired))
    else if Utf16Length(dto.value.name.value) > MaxNameLength then
      Failure(IllegalArgument(MsgNameTooLong))
    else if dto.value.members.None? || |dto.value.members.value| == 0 then
      Failure(IllegalArgument(MsgMembersRequired))
    else CheckMembers(dto.value.members.value, {})
  }

  // ---------------------------------------------------------------- key cleanup

  /** The characters `[A-Za-z0-9\s]` keeps. */
  predicate IsKeyChar(c: char) {
    IsAsciiLetter(c) || IsDigit(c) || IsRegexSpace(c)
  }

  predicate IsAlnum(c: char) {
    IsAsciiLetter(c) || IsDigit(c)
  }

  predicate NotSpace(c: char) {
    !IsRegexSpace(c)
  }

  /** The subsequence of `s` whose characters satisfy `keep`. */
  function Filter(s: string, keep: char -> bool): (r: string)
    ensures |r| <= |s|
    ensures forall i :: 0 <= i < |r| ==> keep(r[i])
  {
    if |s| == 0 then [] else (if keep(s[0]) then [s[0]] else []) + Filter(s[1..], keep)
  }

  /** Characters that satisfy `keep` survive filtering once `keep` is relaxed. */
  lemma {:induction false} FilterFilter(s: string, keep: char -> bool, outer: char -> bool)
    requires forall c :: keep(c) ==> outer(c)
    ensures Filter(Filter(s, outer), keep) == Filter(s, keep)
  {
    if |s| > 0 {
      FilterFilter(s[1..], keep, outer);
      if outer(s[0]) {
        assert Filter(s, outer) == [s[0]] + Filter(s[1..], outer);
        assert Filter(s, outer)[1..] == Filter(s[1..], outer);
      } else {
        assert Filter(s, outer) == Filter(s[1..], outer);
      }
    }
  }

  /** `replaceAll("[^A-Za-z0-9\\s]", "")`. */
  function RemoveSpecial(s: string): (r: string)
    ensures forall i :: 0 <= i < |r| ==> IsKeyChar(r[i])
  {
    Filter(s, IsKeyChar)
  }

  /** `replaceAll("\\s+", " ")`: each maximal run of regex whitespace becomes one space. */
  function CollapseSpaces(s: string): (r: string)
    ensures forall i :: 0 <= i < |r| ==> !IsRegexSpace(r[i]) || r[i] == ' '
    ensures forall i :: 0 <= i < |r| - 1 ==> !(r[i] == ' ' && r[i + 1] == ' ')
    ensures |r| > 0 <==> |s| > 0
    ensures |r| > 0 ==> (r[0] == ' ' <==> IsRegexSpace(s[0]))
    decreases |s|
  {
    if |s| == 0 then []
    else if IsRegexSpace(s[0]) then
      " " + CollapseSpaces(DropLeading(s[1..], IsRegexSpace))
    else
      [s[0]] + CollapseSpaces(s[1..])
  }

  /** Collapsing introduces no character but the space: a property every
      input character has, every output character has or is a space. */
  lemma {:induction false} CollapseKeeps(s: string, p: char -> bool)
    requires forall i :: 0 <= i < |s| ==> p(s[i])
    ensures forall i :: 0 <= i < |CollapseSpaces(s)| ==> CollapseSpaces(s)[i] == ' ' || p(CollapseSpaces(s)[i])
    decreases |s|
  {
    if |s| > 0 {
      var head := if IsRegexSpace(s[0]) then ' ' else s[0];
      var rest := if IsRegexSpace(s[0]) then DropLeading(s[1..], IsRegexSpace) else s[1..];
      assert CollapseSpaces(s) == [head] + CollapseSpaces(rest);
      forall i | 0 <= i < |rest|
        ensures p(rest[i])
      {
        assert rest[i] == s[|s| - |rest| + i];
      }
      CollapseKeeps(rest, p);
      PrependKeeps(head, CollapseSpaces(rest), p);
    }
  }

  /** Prepending a space or a character with the property keeps it. */
  lemma PrependKeeps(head: char, tail: string, p: char -> bool)
    requires head == ' ' || p(head)
    requires forall i :: 0 <= i < |tail| ==> tail[i] == ' ' || p(tail[i])
    ensures forall i :: 0 <= i < |[head] + tail| ==> ([head] + tail)[i] == ' ' || p(([head] + tail)[i])
  {
    forall i | 0 < i < |[head] + tail|
      ensures ([head] + tail)[i] == tail[i - 1]
    {
    }
  }

  /** Collapsing keeps the non-space characters, in order. */
  lemma {:induction false} CollapseContent(s: string)
    ensures Filter(CollapseSpaces(s), NotSpace) == Filter(s, NotSpace)
    decreases |s|
  {
    if |s| > 0 {
      if IsRegexSpace(s[0]) {
        var rest := DropLeading(s[1..], IsRegexSpace);
        CollapseContent(rest);
        SpaceRunFilter(s, rest);
        assert (" " + CollapseSpaces(rest))[1..] == CollapseSpaces(rest);
      } else {
        CollapseContent(s[1..]);
        assert ([s[0]] + CollapseSpaces(s[1..]))[1..] == CollapseSpaces(s[1..]);
      }
    }
  }

  /** A stripped run of whitespace contributes nothing to the non-space content. */
  lemma {:induction false} SpaceRunFilter(s: string, rest: string)
    requires |rest| <= |s| && rest == s[|s| - |rest|..]
    requires forall i :: 0 <= i < |s| - |rest| ==> IsRegexSpace(s[i])
    ensures Filter(s, NotSpace) == Filter(rest, NotSpace)
  {
    if |s| > |rest| {
      SpaceRunFilter(s[1..], rest);
    } else {
      assert s == rest;
    }
  }

  /** The name as `generateProjectKey` cleans it: trimmed, stripped of
      characters outside `[A-Za-z0-9\s]`, whitespace runs collapsed to one
      space, upper-cased. */
  function CleanName(name: string): (r: string)
    ensures forall i :: 0 <= i < |r| ==> ('A' <= r[i] <= 'Z') || IsDigit(r[i]) || r[i] == ' '
    ensures forall i :: 0 <= i < |r| - 1 ==> !(r[i] == ' ' && r[i + 1] == ' ')
  {
    var kept := RemoveSpecial(JavaTrim(name));
    CleanedChars(kept);
    Upper(CollapseSpaces(kept))
  }

  /** Collapsing and upper-casing characters of `[A-Za-z0-9\s]` leaves
      upper-case letters, digits and single spaces. */
  lemma CleanedChars(kept: string)
    requires forall i :: 0 <= i < |kept| ==> IsKeyChar(kept[i])
    ensures forall i :: 0 <= i < |CollapseSpaces(kept)| ==>
      ('A' <= Upper(CollapseSpaces(kept))[i] <= 'Z') || IsDigit(Upper(CollapseSpaces(kept))[i])
      || Upper(CollapseSpaces(kept))[i] == ' ' 
  {
    CollapseKeeps(kept, IsKeyChar);
  }

  /** Upper-casing commutes with dropping spaces, since it maps no letter or
      digit to a space and no space to anything else. */
  lemma {:induction false} UpperFilterSpaces(s: string)
    ensures Filter(Upper(s), NotSpace) == Upper(Filter(s, NotSpace))
  {
    if |s| > 0 {
      UpperFilterSpaces(s[1..]);
      assert Upper(s)[1..] == Upper(s[1..]);
      assert IsRegexSpace(Upper(s)[0]) == IsRegexSpace(s[0]);
      if !IsRegexSpace(s[0]) {
        assert Upper([s[0]] + Filter(s[1..], NotSpace))
            == [UpperChar(s[0])] + Upper(Filter(s[1..], NotSpace));
      }
    }
  }

  /** Cleanup keeps exactly the letters and digits of the trimmed name, in
      order and upper-cased; everything else in the cleaned name is spaces. */
  lemma CleanNameContent(name: string)
    ensures Filter(CleanName(name), NotSpace)
         == Upper(Filter(JavaTrim(name), IsAlnum))
  {
    var t := JavaTrim(name);
    var removed := RemoveSpecial(t);
    var collapsed := CollapseSpaces(removed);
    UpperFilterSpaces(collapsed);
    CollapseContent(removed);
    FilterFilter(t, IsAlnum, IsKeyChar);
    FilterSameOn(removed, NotSpace, IsAlnum);
  }

  /** Two filters agree on a string whose characters they judge alike. */
  lemma {:induction false} FilterSameOn(s: string, p: char -> bool, q: char -> bool)
    requires forall i :: 0 <= i < |s| ==> IsKeyChar(s[i])
    requires forall c :: IsKeyChar(c) ==> (p(c) <==> q(c))
    ensures Filter(s, p) == Filter(s, q)
  {
    if |s| > 0 {
      FilterSameOn(s[1..], p, q);
    }
  }

  // ---------------------------------------------------------------- split

  /** The length of the leading run of non-whitespace characters. */
  function WordLength(s: string): (n: nat)
    ensures n <= |s|
    ensures forall i :: 0 <= i < n ==> !IsRegexSpace(s[i])
    ensures n < |s| ==> IsRegexSpace(s[n])
  {
    if |s| == 0 || IsRegexSpace(s[0]) then 0 else 1 + WordLength(s[1..])
  }

  /** The pieces a `\s+` match cuts `s` into, empty pieces included. */
  function Pieces(s: string): (ps: seq<string>)
    ensures |ps| >= 1
    decreases |s|
  {
    var n := WordLength(s);
    if n == |s| then [s]
    else
      var rest := DropLeading(s[n + 1..], IsRegexSpace);
      [s[..n]] + Pieces(rest)
  }

  /** Drops trailing empty strings, as `String.split` does. */
  function DropEmptyTail(ps: seq<string>): (r: seq<string>)
    ensures |r| <= |ps| && r == ps[..|r|]
    ensures |r| > 0 ==> r[|r| - 1] != []
    ensures forall k :: |r| <= k < |ps| ==> ps[k] == []
  {
    if |ps| > 0 && ps[|ps| - 1] == [] then DropEmptyTail(ps[..|ps| - 1]) else ps
  }

  /** Java `s.split("\\s+")`: with no match the whole string is the only
      piece; otherwise the pieces, trailing empty ones removed. A leading
      empty piece survives when `s` starts with whitespace. */
  function JavaSplit(s: string): (words: seq<string>)
    ensures (forall i :: 0 <= i < |s| ==> !IsRegexSpace(s[i])) ==> words == [s]
  {
    if WordLength(s) == |s| then [s] else DropEmptyTail(Pieces(s))
  }

  // ---------------------------------------------------------------- base key

  /** The first characters of the non-empty words, in order. */
  function AllInitials(words: seq<string>): (r: string)
    ensures |r| <= |words|
  {
    if |words| == 0 then []
    else (if words[0] != [] then [words[0][0]] else []) + AllInitials(words[1..])
  }

  /** The multi-word loop: append a word's first character while the
      builder holds fewer than ten. */
  function InitialsLoop(words: seq<string>, acc: string): (r: string)
    requires |acc| <= MaxKeyLength
    ensures |r| <= MaxKeyLength
    ensures r == acc + AllInitials(words)[..Min(MaxKeyLength - |acc|, |AllInitials(words)|)]
  {
    if |words| == 0 then acc
    else
      var acc' := if words[0] != [] && |acc| < MaxKeyLength then acc + [words[0][0]] else acc;
      var r := InitialsLoop(words[1..], acc');
      if words[0] != [] && |acc| == MaxKeyLength then
        assert r == acc;
        r
      else
        r
  }

  function Min(a: int, b: int): int {
    if a <= b then a else b
  }

  /** The key built from the cleaned name before the "PROJ" fallback. */
  function BuiltKey(cleaned: string): (r: string)
    ensures |r| <= MaxKeyLength
  {
    var words := JavaSplit(cleaned);
    if |words| > 1 then InitialsLoop(words, [])
    else if cleaned != [] then cleaned[..Min(MaxKeyLength, |cleaned|)]
    else []
  }

  /** The key built from a cleaned name: the built key, "PROJ" when it is
      empty, and an "X" appended to a one-character key. */
  function KeyOfCleaned(cleaned: string): (r: string)
    ensures 2 <= |r| <= MaxKeyLength
  {
    var built := BuiltKey(cleaned);
    var value := if |built| > 0 then built else "PROJ";
    if |value| < 2 then value + "X" else value
  }

  /** The key candidate before collision handling. */
  function BaseKey(name: string): (r: string)
    ensures 2 <= |r| <= MaxKeyLength
  {
    KeyOfCleaned(CleanName(name))
  }

  /** A name whose cleanup leaves nothing gets the fallback key. */
  lemma BaseKeyEmpty(name: string)
    requires CleanName(name) == []
    ensures BaseKey(name) == "PROJ"
  {
    assert JavaSplit([]) == [[]];
  }

  /** A single cleaned word gives its first up-to-ten characters, padded
      with "X" when only one character is left. */
  lemma BaseKeySingleWord(name: string)
    requires CleanName(name) != []
    requires forall i :: 0 <= i < |CleanName(name)| ==> CleanName(name)[i] != ' '
    ensures |CleanName(name)| >= 2 ==>
      BaseKey(name) == CleanName(name)[..Min(MaxKeyLength, |CleanName(name)|)]
    ensures |CleanName(name)| == 1 ==> BaseKey(name) == CleanName(name) + "X"
  {
    SingleWordKey(CleanName(name));
  }

  lemma SingleWordKey(c: string)
    requires c != []
    requires forall i :: 0 <= i < |c| ==> !IsRegexSpace(c[i])
    ensures |c| >= 2 ==> KeyOfCleaned(c) == c[..Min(MaxKeyLength, |c|)]
    ensures |c| == 1 ==> KeyOfCleaned(c) == c + "X"
  {
    assert JavaSplit(c) == [c];
    assert BuiltKey(c) == c[..Min(MaxKeyLength, |c|)];
  }

  /** A cleaned name that splits into several pieces gives the initials of
      its non-empty words, at most ten, padded with "X" when there is only
      one. */
  lemma BaseKeyMultiWord(name: string)
    requires |JavaSplit(CleanName(name))| > 1
    requires AllInitials(JavaSplit(CleanName(name))) != []
    ensures var ini := AllInitials(JavaSplit(CleanName(name)));
      BaseKey(name) == if |ini| == 1 then ini + "X" else ini[..Min(MaxKeyLength, |ini|)]
  {
    MultiWordKey(CleanName(name));
  }

  lemma MultiWordKey(c: string)
    requires |JavaSplit(c)| > 1
    requires AllInitials(JavaSplit(c)) != []
    ensures var ini := AllInitials(JavaSplit(c));
      KeyOfCleaned(c) == if |ini| == 1 then ini + "X" else ini[..Min(MaxKeyLength, |ini|)]
  {
    var ini := AllInitials(JavaSplit(c));
    assert BuiltKey(c) == ini[..Min(MaxKeyLength, |ini|)];
    if |ini| == 1 {
      assert BuiltKey(c) == ini;
    }
  }

  // ---------------------------------------------------------------- collisions

  /** The base as it stands once counter `c` has been tried: cut short
      where needed so that base and counter fit in ten characters. */
  function CutFor(base: string, c: nat): (cut: string)
    requires 1 <= c <= IntMax
    ensures |cut| <= |base| && cut == base[..|cut|]
    ensures |cut| + |NatToString(c)| <= MaxKeyLength || cut == base
  {
    SuffixFits(c);
    base[..Min(|base|, MaxKeyLength - |NatToString(c)|)]
  }

  /** The key tried for counter `c`. */
  function Candidate(base: string, c: nat): string
    requires 1 <= c <= IntMax
  {
    CutFor(base, c) + NatToString(c)
  }

  /** A candidate is a prefix of the base followed by the counter, and fits
      in ten characters. */
  lemma CandidateShape(base: string, c: nat)
    requires 1 <= c <= IntMax
    ensures var key := Candidate(base, c);
      && |key| <= MaxKeyLength
      && |NatToString(c)| <= |key| <= |base| + |NatToString(c)|
      && key[..|key| - |NatToString(c)|] == base[..|key| - |NatToString(c)|]
      && key[|key| - |NatToString(c)|..] == NatToString(c)
  {
    SuffixFits(c);
    var key := Candidate(base, c);
    assert key[..|key| - |NatToString(c)|] == CutFor(base, c);
  }

  /** Counters up to `IntMax` have at most ten digits. */
  lemma SuffixFits(c: nat)
    requires c <= IntMax
    ensures |NatToString(c)| <= MaxKeyLength
  {
    assert Pow10(10) == 10_000_000_000;
    NatToStringLength(c, 10);
  }

  /** Cutting the base down for counter `c` does not change any later candidate. */
  lemma {:induction false} TruncationPersists(base: string, c: nat, j: nat)
    requires 1 <= c <= j <= IntMax
    ensures Candidate(CutFor(base, c), j) == Candidate(base, j)
  {
    SuffixFits(c);
    SuffixFits(j);
    NatToStringMonotone(c, j);
  }

  lemma TruncationPersistsAll(base: string, c: nat)
    requires 1 <= c <= IntMax
    ensures forall j :: c <= j <= IntMax ==> Candidate(CutFor(base, c), j) == Candidate(base, j)
  {
    forall j | c <= j <= IntMax
      ensures Candidate(CutFor(base, c), j) == Candidate(base, j)
    {
      TruncationPersists(base, c, j);
    }
  }

  /** The `while (existsByProjectKey(projectKey))` loop from counter `counter`
      on, with `base` the possibly cut base at that point. When the counter
      passes `IntMax` it wraps to a negative number whose eleven-character
      rendering makes `substring` throw. */
  function Probe(base: string, taken: set<string>, counter: nat): (r: Result<string, Error>)
    requires 1 <= counter <= IntMax + 1
    ensures r.Success? ==> r.value !in taken && |r.value| <= MaxKeyLength
    decreases IntMax + 1 - counter
  {
    if counter > IntMax then Failure(Runtime("String index out of range"))
    else
      SuffixFits(counter);
      var suffix := NatToString(counter);
      var cut := if MaxKeyLength - |base| - |suffix| < 0 then base[..MaxKeyLength - |suffix|] else base;
      var key := cut + suffix;
      if key in taken then Probe(cut, taken, counter + 1) else Success(key)
  }

  /** One turn of the loop, in terms of `Candidate` and `CutFor`. */
  lemma ProbeStep(base: string, taken: set<string>, counter: nat)
    requires 1 <= counter <= IntMax
    ensures Probe(base, taken, counter) ==
      if Candidate(base, counter) in taken then Probe(CutFor(base, counter), taken, counter + 1)
      else Success(Candidate(base, counter))
  {
    SuffixFits(counter);
    var suffix := NatToString(counter);
    assert CutFor(base, counter) ==
      if MaxKeyLength - |base| - |suffix| < 0 then base[..MaxKeyLength - |suffix|] else base;
  }

  /** Every candidate from counter `lo` up to, not including, `hi` is taken. */
  predicate AllTaken(base: string, taken: set<string>, lo: nat, hi: nat)
    requires 1 <= lo && hi <= IntMax + 1
  {
    forall j :: lo <= j < hi ==> Candidate(base, j) in taken
  }

  /** When the base was cut for a taken counter, the later candidates of
      the cut base are those of the base. */
  lemma {:induction false} AllTakenUnderCut(base: string, taken: set<string>, counter: nat, hi: nat)
    requires 1 <= counter < hi <= IntMax + 1
    requires Candidate(base, counter) in taken
    requires AllTaken(CutFor(base, counter), taken, counter + 1, hi)
    ensures AllTaken(base, taken, counter, hi)
  {
    forall j | counter < j < hi
      ensures Candidate(base, j) in taken
    {
      TruncationPersists(base, counter, j);
      assert Candidate(CutFor(base, counter), j) in taken;
    }
  }

  /** A key the loop returns is the candidate of the first counter whose
      candidate is free. */
  lemma {:induction false} ProbeFound(base: string, taken: set<string>, counter: nat)
    requires 1 <= counter <= IntMax + 1
    requires Probe(base, taken, counter).Success?
    ensures exists k :: (counter <= k <= IntMax && Probe(base, taken, counter).value == Candidate(base, k)
      && AllTaken(base, taken, counter, k))
    decreases IntMax + 1 - counter
  {
    ProbeStep(base, taken, counter);
    if Candidate(base, counter) in taken {
      var cut := CutFor(base, counter);
      ProbeFound(cut, taken, counter + 1);
      var k :| counter + 1 <= k <= IntMax && Probe(cut, taken, counter + 1).value == Candidate(cut, k)
        && AllTaken(cut, taken, counter + 1, k);
      TruncationPersists(base, counter, k);
      AllTakenUnderCut(base, taken, counter, k);
    } else {
      assert AllTaken(base, taken, counter, counter);
    }
  }

  /** The loop throws exactly when every candidate up to `IntMax` is taken. */
  lemma {:induction false} ProbeExhausted(base: string, taken: set<string>, counter: nat)
    requires 1 <= counter <= IntMax + 1
    ensures Probe(base, taken, counter).Failure? <==> AllTaken(base, taken, counter, IntMax + 1)
    decreases IntMax + 1 - counter
  {
    if counter <= IntMax {
      ProbeStep(base, taken, counter);
      if Candidate(base, counter) in taken {
        var cut := CutFor(base, counter);
        ProbeExhausted(cut, taken, counter + 1);
        if Probe(base, taken, counter).Failure? {
          AllTakenUnderCut(base, taken, counter, IntMax + 1);
        } else {
          var j :| counter + 1 <= j <= IntMax && Candidate(cut, j) !in taken;
          TruncationPersists(base, counter, j);
        }
      }
    }
  }



  /** `generateProjectKey`: the base key when it is free, otherwise the
      first free candidate for counters 1, 2, …; every key it returns is
      unused and holds between two and ten characters. */
  function GenerateProjectKey(name: string, taken: set<string>): (r: Result<string, Error>)
    ensures BaseKey(name) !in taken ==> r == Success(BaseKey(name))
    ensures r.Success? ==> r.value !in taken && 2 <= |r.value| <= MaxKeyLength
    ensures r.Success? && BaseKey(name) in taken ==>
      exists k :: 1 <= k <= IntMax && r.value == Candidate(BaseKey(name), k) && AllTaken(BaseKey(name), taken, 1, k)
    ensures r.Failure? <==> BaseKey(name) in taken && AllTaken(BaseKey(name), taken, 1, IntMax + 1)
  {
    var base := BaseKey(name);
    if base !in taken then Success(base)
    else
      ProbeExhausted(base, taken, 1);
      var r := Probe(base, taken, 1);
      if r.Success? then
        ProbeFound(base, taken, 1);
        var k :| 1 <= k <= IntMax && r.value == Candidate(base, k);
        CandidateAtLeastTwo(base, k);
        r
      else r
  }

  /** A candidate built from a base of two or more characters is itself at
      least two characters long. */
  lemma CandidateAtLeastTwo(base: string, k: nat)
    requires 2 <= |base| && 1 <= k <= IntMax
    ensures |Candidate(base, k)| >= 2
  {
    SuffixFits(k);
    CandidateShape(base, k);
    if |NatToString(k)| < MaxKeyLength {
      assert |Candidate(base, k)| >= 1 + |NatToString(k)|;
    } else {
      assert k >= Pow10(9) by {
        if k < Pow10(9) {
          NatToStringLength(k, 9);
        }
      }
    }
  }

  /** The taken keys: every project's key. */
  function ProjectKeys(st: Store): (keys: set<string>)
    ensures forall id :: id in st.projects && st.projects[id].projectKey.Some? ==>
      st.projects[id].projectKey.value in keys
    ensures forall k :: k in keys ==> exists id :: id in st.projects && st.projects[id].projectKey == Some(k)
  {
    set id | id in st.projects && st.projects[id].projectKey.Some? :: st.projects[id].projectKey.value
  }

  // ---------------------------------------------------------------- creation

  /** Every requested member names an existing user. */
  predicate MembersExist(st: Store, ms: seq<MemberEntry>) {
    forall i :: 0 <= i < |ms| && ms[i].userId.Some? ==> ms[i].userId.value in st.users
  }

  /** The member lookup loop of `createProject`: the first unknown id throws. */
  function LookupMembers(st: Store, ms: seq<MemberEntry>): (r: Result<set<nat>, Error>)
    requires EntriesComplete(ms)
    ensures r.Success? <==> MembersExist(st, ms)
    ensures r.Success? ==> forall u :: u in r.value <==> exists i :: 0 <= i < |ms| && ms[i].userId == Some(u)
    ensures r.Failure? ==>
      exists i :: (0 <= i < |ms| && ms[i].userId.value !in st.users
        && r.error == IllegalArgument(MsgUserNotFoundPrefix + NatToString(ms[i].userId.value)))
  {
    if |ms| == 0 then Success({})
    else if ms[0].userId.value !in st.users then
      Failure(IllegalArgument(MsgUserNotFoundPrefix + NatToString(ms[0].userId.value)))
    else
      assert forall i :: 1 <= i < |ms| ==> ms[i] == ms[1..][i - 1];
      match LookupMembers(st, ms[1..])
      case Failure(e) => Failure(e)
      case Success(rest) => Success({ms[0].userId.value} + rest)
  }

  /** The membership rows written for a new project: one per entry, with that entry's role. */
  function MemberRows(pid: nat, ms: seq<MemberEntry>): (rows: set<MemberRow>)
    requires EntriesComplete(ms)
    ensures forall row :: row in rows <==>
      row.projectId == pid
      && (exists i :: 0 <= i < |ms| && ms[i].userId == Some(row.userId) && ms[i].role == Some(row.role))
  {
    set i | 0 <= i < |ms| :: MemberRow(pid, ms[i].userId.value, ms[i].role.value)
  }

  /** `createProject` with `finalKey` standing for the key the project ends
      up with. On success the new project takes the next id, the trimmed
      name, the trimmed description or none, is active, lists exactly the
      requested users as members and gets one role row per entry; the other
      repositories are untouched. */
  function CreateProject(st: Store, dto: Option<CreateProjectDto>, finalKey: string): (r: Result<(Store, nat), Error>)
    ensures r.Success? <==> ValidDto(dto) && MembersExist(st, dto.value.members.value)
    ensures r.Failure? && !ValidDto(dto) ==> r == ValidateProjectDto(dto).PropagateFailure()
    ensures r.Success? ==>
      var (st', pid) := r.value;
      var d := dto.value;
      && pid == st.nextProjectId
      && st'.nextProjectId == st.nextProjectId + 1
      && pid in st'.projects
      && st'.projects == st.projects[pid := st'.projects[pid]]
      && st'.projects[pid].name == JavaTrim(d.name.value)
      && st'.projects[pid].description == (if d.description.Some? then Some(JavaTrim(d.description.value)) else None)
      && st'.projects[pid].active
      && st'.projects[pid].projectKey == Some(finalKey)
      && (forall u :: u in st'.projects[pid].members <==>
            exists i :: 0 <= i < |d.members.value| && d.members.value[i].userId == Some(u))
      && (forall row :: row in st'.memberRows <==>
            || row in st.memberRows
            || (row.projectId == pid
                && (exists i :: 0 <= i < |d.members.value|
                      && d.members.value[i].userId == Some(row.userId)
                      && d.members.value[i].role == Some(row.role))))
      && st'.users == st.users && st'.stories == st.stories && st'.plans == st.plans
      && st' == st.(projects := st'.projects, memberRows := st'.memberRows, nextProjectId := pid + 1)
  {
    var _ :- ValidateProjectDto(dto);
    var d := dto.value;
    var pid := st.nextProjectId;
    var members :- LookupMembers(st, d.members.value);
    var description := if d.description.Some? then Some(JavaTrim(d.description.value)) else None;
    var project := Project(JavaTrim(d.name.value), description, Some(finalKey), true, members);
    Success((st.(projects := st.projects[pid := project],
                 memberRows := st.memberRows + MemberRows(pid, d.members.value),
                 nextProjectId := pid + 1), pid))
  }

  /** Distinct requested ids give each member of the new project exactly one
      role row: the role of its entry. */
  lemma CreateProjectOneRowPerMember(st: Store, dto: Option<CreateProjectDto>, finalKey: string,
                                     row: MemberRow, i: nat)
    requires CreateProject(st, dto, finalKey).Success?
    requires row in CreateProject(st, dto, finalKey).value.0.memberRows - st.memberRows
    requires i < |dto.value.members.value| && dto.value.members.value[i].userId == Some(row.userId)
    ensures row.projectId == st.nextProjectId
    ensures dto.value.members.value[i].role == Some(row.role)
  {
  }

  /** On a store whose ids all came from the counters, creation takes an id
      no project has yet and keeps every id below its counter. */
  lemma CreateProjectAllocatesFreshId(st: Store, dto: Option<CreateProjectDto>, finalKey: string)
    requires IdsBelowCounters(st)
    requires CreateProject(st, dto, finalKey).Success?
    ensures st.nextProjectId !in st.projects
    ensures var st' := CreateProject(st, dto, finalKey).value.0;
      && st'.projects - {st.nextProjectId} == st.projects
      && IdsBelowCounters(st')
  {
  }


  /** With the store's keys as the taken set, as `existsByProjectKey` asks
      the repository, a generated key belongs to no stored project. */
  lemma GeneratedKeyIsUnused(st: Store, name: string)
    requires GenerateProjectKey(name, ProjectKeys(st)).Success?
    ensures forall id :: id in st.projects ==>
      st.projects[id].projectKey != Some(GenerateProjectKey(name, ProjectKeys(st)).value)
  {
  }

}
