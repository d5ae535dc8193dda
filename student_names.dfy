/**
 * The name-normalisation rules of the students controller and their use when a student is
 * created or updated. The database itself is a map from student id to student.
 */
module StudentNames {
  import opened Wrappers
  import opened Text

  /** The non-blank parts, each trimmed, in their original order (LINQ `Where`, then `Select`). */
  function TrimmedParts(parts: seq<string>): (r: seq<string>)
    ensures |r| <= |parts|
  {
    if parts == [] then []
    else
      var rest := TrimmedParts(parts[1..]);
      if IsBlank(parts[0]) then rest else [Trim(parts[0])] + rest
  }

  /** Every surviving part is non-empty and trimmed. */
  lemma {:induction false} TrimmedPartsTrimmed(parts: seq<string>)
    ensures forall i | 0 <= i < |TrimmedParts(parts)| :: TrimmedParts(parts)[i] != [] && IsTrimmed(TrimmedParts(parts)[i])
  {
    if parts != [] {
      var rest := TrimmedParts(parts[1..]);
      TrimmedPartsTrimmed(parts[1..]);
      if !IsBlank(parts[0]) {
        var t := Trim(parts[0]);
        TrimIsTrimmed(parts[0]);
        TrimEmptyIffBlank(parts[0]);
        ConsIndex(t, rest);
      }
    }
  }

  /** Nothing survives exactly when every part is blank. */
  lemma {:induction false} TrimmedPartsEmpty(parts: seq<string>)
    ensures TrimmedParts(parts) == [] <==> forall i | 0 <= i < |parts| :: IsBlank(parts[i])
  {
    if parts != [] {
      TrimmedPartsEmpty(parts[1..]);
      AllBlankCons(parts);
    }
  }

  /** The elements of `[x] + xs` after the first are those of `xs`. */
  lemma ConsIndex<T>(x: T, xs: seq<T>)
    ensures ([x] + xs)[0] == x
    ensures forall i | 1 <= i < |[x] + xs| :: ([x] + xs)[i] == xs[i - 1]
  {
  }

  /** Every part is blank exactly when the first one and every later one are. */
  lemma AllBlankCons(parts: seq<string>)
    requires parts != []
    ensures (forall i | 0 <= i < |parts| :: IsBlank(parts[i]))
        <==> IsBlank(parts[0]) && forall i | 0 <= i < |parts[1..]| :: IsBlank(parts[1..][i])
  {
    assert forall i | 1 <= i < |parts| :: parts[i] == parts[1..][i - 1];
  }

  /**
   * The shared rule: keep the current value, trimmed, when it is not blank; otherwise join
   * the trimmed non-blank parts with single spaces and trim the result.
   */
  function Normalize(current: string, parts: seq<string>): (r: string)
    ensures IsTrimmed(r)
    ensures r == [] <==> IsBlank(current) && forall i | 0 <= i < |parts| :: IsBlank(parts[i])
  {
    if !IsBlank(current) then
      Trim(current)
    else
      TrimmedPartsTrimmed(parts);
      JoinTrimmed(' ', TrimmedParts(parts));
      TrimmedPartsEmpty(parts);
      Trim(Join(' ', TrimmedParts(parts)))
  }

  /** Two already-trimmed texts separated by one space, an empty one being left out. */
  function SpaceJoin(a: string, b: string): string {
    if a == [] then b else if b == [] then a else a + " " + b
  }

  /** Joining the trimmed non-blank parts of `p` followed by `ps`, one part at a time. */
  lemma JoinTrimmedPartsCons(p: string, ps: seq<string>)
    ensures Join(' ', TrimmedParts([p] + ps)) == SpaceJoin(Trim(p), Join(' ', TrimmedParts(ps)))
  {
    var rest := TrimmedParts(ps);
    assert ([p] + ps)[1..] == ps && ([p] + ps)[0] == p;
    TrimmedPartsTrimmed(ps);
    JoinTrimmed(' ', rest);
    if IsBlank(p) {
      assert TrimmedParts([p] + ps) == rest;
    } else {
      var parts := [Trim(p)] + rest;
      assert TrimmedParts([p] + ps) == parts;
      assert parts[1..] == rest;
      if rest != [] {
        assert Join(' ', parts) == Trim(p) + [' '] + Join(' ', rest);
      }
    }
  }

  /** With a blank current value the final `Trim` has nothing left to remove. */
  lemma NormalizeBlankCurrent(current: string, parts: seq<string>)
    requires IsBlank(current)
    ensures Normalize(current, parts) == Join(' ', TrimmedParts(parts))
  {
    TrimmedPartsTrimmed(parts);
    JoinTrimmed(' ', TrimmedParts(parts));
    TrimOfTrimmed(Join(' ', TrimmedParts(parts)));
  }

  lemma JoinTwoParts(paternal: string, maternal: string)
    ensures Join(' ', TrimmedParts([paternal, maternal])) == SpaceJoin(Trim(paternal), Trim(maternal))
  {
    assert [paternal, maternal] == [paternal] + [maternal];
    JoinTrimmedPartsCons(paternal, [maternal]);
    assert [maternal] == [maternal] + [];
    JoinTrimmedPartsCons(maternal, []);
  }

  lemma JoinThreeParts(first: string, paternal: string, maternal: string)
    ensures Join(' ', TrimmedParts([first, paternal, maternal]))
         == SpaceJoin(Trim(first), SpaceJoin(Trim(paternal), Trim(maternal)))
  {
    assert [first, paternal, maternal] == [first] + [paternal, maternal];
    JoinTrimmedPartsCons(first, [paternal, maternal]);
    JoinTwoParts(paternal, maternal);
  }

  /**
   * `NormalizeLastName`: a non-blank current last name wins, trimmed; otherwise the trimmed
   * paternal and maternal names, blank ones dropped, separated by one space.
   */
  function NormalizeLastName(current: string, paternal: string, maternal: string): (r: string)
    ensures !IsBlank(current) ==> r == Trim(current)
    ensures IsBlank(current) ==> r == SpaceJoin(Trim(paternal), Trim(maternal))
    ensures IsTrimmed(r)
    ensures r == [] <==> IsBlank(current) && IsBlank(paternal) && IsBlank(maternal)
  {
    if IsBlank(current) then
      NormalizeBlankCurrent(current, [paternal, maternal]);
      JoinTwoParts(paternal, maternal);
      Normalize(current, [paternal, maternal])
    else
      Normalize(current, [paternal, maternal])
  }

  /**
   * `NormalizeFullName`: a non-blank current full name wins, trimmed; otherwise the trimmed
   * first, paternal and maternal names, blank ones dropped, separated by one space.
   */
  function NormalizeFullName(current: string, first: string, paternal: string, maternal: string): (r: string)
    ensures !IsBlank(current) ==> r == Trim(current)
    ensures IsBlank(current) ==> r == SpaceJoin(Trim(first), SpaceJoin(Trim(paternal), Trim(maternal)))
    ensures IsTrimmed(r)
    ensures r == [] <==> IsBlank(current) && IsBlank(first) && IsBlank(paternal) && IsBlank(maternal)
  {
    if IsBlank(current) then
      NormalizeBlankCurrent(current, [first, paternal, maternal]);
      JoinThreeParts(first, paternal, maternal);
      Normalize(current, [first, paternal, maternal])
    else
      Normalize(current, [first, paternal, maternal])
  }

  /** With every current value blank, the full name is the first name followed by the last name. */
  lemma FullNameIsFirstThenLastName(first: string, paternal: string, maternal: string)
    ensures NormalizeFullName("", first, paternal, maternal)
         == SpaceJoin(Trim(first), NormalizeLastName("", paternal, maternal))
  {
  }

  /** Feeding a normalised name back in as the current value, with the same parts, changes nothing. */
  lemma NormalizeIdempotent(current: string, parts: seq<string>)
    ensures Normalize(Normalize(current, parts), parts) == Normalize(current, parts)
  {
    var r := Normalize(current, parts);
    if !IsBlank(r) {
      TrimOfTrimmed(r);
    } else {
    }
  }

  /** Both named rules are idempotent in the same sense. */
  lemma NormalizeNamesIdempotent(current: string, first: string, paternal: string, maternal: string)
    ensures var l := NormalizeLastName(current, paternal, maternal);
      NormalizeLastName(l, paternal, maternal) == l
    ensures var f := NormalizeFullName(current, first, paternal, maternal);
      NormalizeFullName(f, first, paternal, maternal) == f
  {
    NormalizeIdempotent(current, [paternal, maternal]);
    NormalizeIdempotent(current, [first, paternal, maternal]);
    var l := NormalizeLastName(current, paternal, maternal);
    var f := NormalizeFullName(current, first, paternal, maternal);
    assert l == Normalize(current, [paternal, maternal]);
    assert NormalizeLastName(l, paternal, maternal) == Normalize(l, [paternal, maternal]);
    assert f == Normalize(current, [first, paternal, maternal]);
    assert NormalizeFullName(f, first, paternal, maternal) == Normalize(f, [first, paternal, maternal]);
  }

  /** The student entity as the controller reads and writes it. */
  datatype Student = Student(
    id: int,
    firstName: string,
    lastName: string,
    fullName: string,
    paternalLastName: string,
    maternalLastName: string,
    fatherFullName: string,
    motherFullName: string,
    email: string,
    dateOfBirth: int,
    healthStatus: string,
    bloodType: string,
    hasChronicIllness: bool,
    chronicIllnessDetails: string,
    concurrentContactNames: string,
    observations: string,
    createdAt: int)

  /**
   * Why a request is refused: the route and payload ids differ, the student is not found, or
   * saving violates the primary key or the unique index on `Email`.
   */
  datatype StudentError = IdMismatch | NotFound | DuplicateKey | DuplicateEmail

  /** Some stored student other than the one under `except` has this email. */
  predicate EmailTaken(db: map<int, Student>, email: string, except: int) {
    exists k | k in db && k != except :: db[k].email == email
  }

  /** The store as the database keeps it: each student under its own id, and no email twice. */
  predicate ValidStore(db: map<int, Student>) {
    && (forall k | k in db :: db[k].id == k)
    && (forall j, k | j in db && k in db && j != k :: db[j].email != db[k].email)
  }

  /**
   * The key a new student is saved under: the payload's id, or, when that is 0 (unset), the
   * one the database's identity column supplies.
   */
  function NewKey(s: Student, newId: int): int {
    if s.id == 0 then newId else s.id
  }

  /**
   * `CreateStudent`: the payload with its last and full names normalised is saved under its
   * key. Saving fails when the key is already stored or another student has the same email.
   */
  function CreateStudent(db: map<int, Student>, s: Student, newId: int): (r: Result<map<int, Student>, StudentError>)
    requires s.id == 0 ==> newId != 0 && newId !in db
    ensures NewKey(s, newId) in db ==> r == Failure(DuplicateKey)
    ensures NewKey(s, newId) !in db && EmailTaken(db, s.email, NewKey(s, newId)) ==> r == Failure(DuplicateEmail)
    ensures r.Success? <==> NewKey(s, newId) !in db && !EmailTaken(db, s.email, NewKey(s, newId))
    ensures r.Success? ==> forall k :: k in r.value <==> k in db || k == NewKey(s, newId)
    ensures r.Success? ==> var stored := r.value[NewKey(s, newId)];
      && stored.id == NewKey(s, newId)
      && stored.lastName == NormalizeLastName(s.lastName, s.paternalLastName, s.maternalLastName)
      && stored.fullName == NormalizeFullName(s.fullName, s.firstName, s.paternalLastName, s.maternalLastName)
      && stored == s.(id := stored.id, lastName := stored.lastName, fullName := stored.fullName)
    ensures r.Success? ==> forall k | k in db :: r.value[k] == db[k]
  {
    var key := NewKey(s, newId);
    if key in db then Failure(DuplicateKey)
    else if EmailTaken(db, s.email, key) then Failure(DuplicateEmail)
    else
      Success(db[key := s.(
        id := key,
        lastName := NormalizeLastName(s.lastName, s.paternalLastName, s.maternalLastName),
        fullName := NormalizeFullName(s.fullName, s.firstName, s.paternalLastName, s.maternalLastName))])
  }

  /**
   * `UpdateStudent`: a route id that differs from the payload's id is refused before the
   * store is consulted; an unknown id is not found; otherwise every field of the stored
   * student except its id and creation time is taken from the payload, the two names
   * normalised, and saving fails when another student already has the new email.
   */
  function UpdateStudent(db: map<int, Student>, id: int, updated: Student): (r: Result<map<int, Student>, StudentError>)
    ensures id != updated.id ==> r == Failure(IdMismatch)
    ensures id == updated.id && id !in db ==> r == Failure(NotFound)
    ensures id == updated.id && id in db && EmailTaken(db, updated.email, id) ==> r == Failure(DuplicateEmail)
    ensures r.Success? <==> id == updated.id && id in db && !EmailTaken(db, updated.email, id)
    ensures r.Success? ==> forall k :: k in r.value <==> k in db
    ensures r.Success? ==> forall k | k in db && k != id :: r.value[k] == db[k]
    ensures r.Success? ==> r.value[id] == updated.(
      id := db[id].id,
      createdAt := db[id].createdAt,
      lastName := NormalizeLastName(updated.lastName, updated.paternalLastName, updated.maternalLastName),
      fullName := NormalizeFullName(updated.fullName, updated.firstName, updated.paternalLastName, updated.maternalLastName))
  {
    if id != updated.id then Failure(IdMismatch)
    else if id !in db then Failure(NotFound)
    else if EmailTaken(db, updated.email, id) then Failure(DuplicateEmail)
    else
      var s := db[id];
      Success(db[id := s.(
        firstName := updated.firstName,
        lastName := NormalizeLastName(updated.lastName, updated.paternalLastName, updated.maternalLastName),
        fullName := NormalizeFullName(updated.fullName, updated.firstName, updated.paternalLastName, updated.maternalLastName),
        paternalLastName := updated.paternalLastName,
        maternalLastName := updated.maternalLastName,
        fatherFullName := updated.fatherFullName,
        motherFullName := updated.motherFullName,
        email := updated.email,
        dateOfBirth := updated.dateOfBirth,
        healthStatus := updated.healthStatus,
        bloodType := updated.bloodType,
        hasChronicIllness := updated.hasChronicIllness,
        chronicIllnessDetails := updated.chronicIllnessDetails,
        concurrentContactNames := updated.concurrentContactNames,
        observations := updated.observations)])
  }

  /** A successful create keeps every student under its own id and every email unique. */
  lemma CreateKeepsStoreValid(db: map<int, Student>, s: Student, newId: int)
    requires s.id == 0 ==> newId != 0 && newId !in db
    requires ValidStore(db)
    ensures CreateStudent(db, s, newId).Success? ==> ValidStore(CreateStudent(db, s, newId).value)
  {
    if CreateStudent(db, s, newId).Success? {
      var key := NewKey(s, newId);
      var r := CreateStudent(db, s, newId).value;
      forall j, k | j in r && k in r && j != k ensures r[j].email != r[k].email {
        if j == key {
          assert !(db[k].email == s.email);
        } else if k == key {
          assert !(db[j].email == s.email);
        }
      }
    }
  }

  /** A successful update keeps every student under its own id and every email unique. */
  lemma UpdateKeepsStoreValid(db: map<int, Student>, id: int, updated: Student)
    requires ValidStore(db)
    ensures UpdateStudent(db, id, updated).Success? ==> ValidStore(UpdateStudent(db, id, updated).value)
  {
    if UpdateStudent(db, id, updated).Success? {
      var r := UpdateStudent(db, id, updated).value;
      forall j, k | j in r && k in r && j != k ensures r[j].email != r[k].email {
        if j == id {
          assert !(db[k].email == updated.email);
        } else if k == id {
          assert !(db[j].email == updated.email);
        }
      }
    }
  }

  /** Updating a student with its own stored values again leaves the store as it is. */
  lemma UpdateWithStoredNamesIsStable(db: map<int, Student>, id: int)
    requires ValidStore(db) && id in db
    requires var s := db[id];
      && s.lastName == NormalizeLastName(s.lastName, s.paternalLastName, s.maternalLastName)
      && s.fullName == NormalizeFullName(s.fullName, s.firstName, s.paternalLastName, s.maternalLastName)
    ensures UpdateStudent(db, id, db[id]) == Success(db)
  {
    StoredEmailIsFree(db, id);
    var s := db[id];
    var s' := s.(
      id := s.id,
      createdAt := s.createdAt,
      lastName := NormalizeLastName(s.lastName, s.paternalLastName, s.maternalLastName),
      fullName := NormalizeFullName(s.fullName, s.firstName, s.paternalLastName, s.maternalLastName));
    assert s' == s;
    var r := UpdateStudent(db, id, s);
    assert r.Success? && r.value[id] == s;
    assert forall k | k in db :: r.value[k] == db[k];
    assert r.value == db;
  }

  /** In a valid store no other student shares a stored student's email. */
  lemma StoredEmailIsFree(db: map<int, Student>, id: int)
    requires ValidStore(db) && id in db
    ensures !EmailTaken(db, db[id].email, id)
  {
  }

  /** A create that repeats a stored student's email is refused, whatever the key. */
  lemma CreateRefusesRepeatedEmail(db: map<int, Student>, s: Student, newId: int, other: int)
    requires s.id == 0 ==> newId != 0 && newId !in db
    requires other in db && db[other].email == s.email
    ensures CreateStudent(db, s, newId).Failure?
  {
    if NewKey(s, newId) !in db {
      assert other != NewKey(s, newId);
    }
  }
}
