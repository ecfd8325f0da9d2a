/**
 * The browser-side history store of lib/storage.ts. The browser's
 * localStorage is a map from key to stored value; every operation is a pure
 * transformer of that map. JSON encoding and decoding are taken to be the
 * identity, so a key holds the value itself.
 */
module Storage {
  import opened Optional
  import opened Scoring

  datatype ApplicationType = Apply | Custom

  datatype Status = Pending | Confirmed | InProgress | Completed | Cancelled

  datatype ApplicantInfo = ApplicantInfo(name: string, email: string, phone: string, message: Option<string>)

  datatype ProgramApplication = ProgramApplication(
    id: string,
    userId: Option<string>,
    sessionId: Option<string>,
    programId: string,
    programTitle: string,
    applicationDate: string,
    applicationType: ApplicationType,
    status: Status,
    applicantInfo: ApplicantInfo,
    price: Option<string>,
    sessions: Option<string>,
    duration: Option<string>)

  /** What one key of the store holds. */
  datatype Value =
    | ResultList(results: seq<AssessmentResult>)
    | SingleResult(result: AssessmentResult)
    | ApplicationList(applications: seq<ProgramApplication>)
    | AnswerMap(answers: map<int, int>)
    | DemographicsValue(demographics: Demographics)
    | Other(text: string)

  type Store = map<string, Value>

  const CurrentAnswersKey: string := "abo_current_answers"
  const AssessmentResultsKey: string := "abo_assessment_results"
  const UserDemographicsKey: string := "abo_user_demographics"
  const ResultsHistoryKey: string := "abo_results_history"
  const TempResultKey: string := "abo_temp_result"
  const ProgramApplicationsKey: string := "abo_program_applications"
  const LatestResultKey: string := "abo_latest_result"
  const CurrentUserKey: string := "abo_current_user"

  /** Cap of the anonymous result list. */
  const MaxResults: nat := 10
  /** Cap of a user's result history. */
  const MaxUserResults: nat := 20

  /** The result-history key of one user. */
  function HistoryKey(userId: string): string {
    ResultsHistoryKey + "_" + userId
  }

  /** The program-application key of one user, session or "anonymous". */
  function ApplicationsKey(owner: string): string {
    ProgramApplicationsKey + "_" + owner
  }

  /** Every key other than `keys` is untouched: present in both stores with
      the same value, or absent from both. */
  ghost predicate UnchangedExcept(st: Store, st': Store, keys: set<string>) {
    forall k :: k !in keys ==> (k in st <==> k in st') && (k in st ==> st[k] == st'[k])
  }

  /** A result list read back; a missing key reads as the empty list. */
  function ReadResults(st: Store, key: string): seq<AssessmentResult> {
    if key in st && st[key].ResultList? then st[key].results else []
  }

  /** A single result read back; a missing key reads as null. */
  function ReadResult(st: Store, key: string): Option<AssessmentResult> {
    if key in st && st[key].SingleResult? then Some(st[key].result) else None
  }

  /** An application list read back; a missing key reads as the empty list. */
  function ReadApplications(st: Store, key: string): seq<ProgramApplication> {
    if key in st && st[key].ApplicationList? then st[key].applications else []
  }

  /** Push x, then shift once if the list has grown beyond cap. */
  function AppendCapped<T>(list: seq<T>, x: T, cap: nat): (r: seq<T>)
    requires cap > 0
    ensures |r| == if |list| + 1 > cap then |list| else |list| + 1
    ensures |r| > 0 && r[|r| - 1] == x
    ensures r[..|r| - 1] == list[|list| + 1 - |r|..]
    ensures |list| < cap ==> r == list + [x]
    ensures |list| >= cap ==> r == list[1..] + [x]
  {
    if |list| + 1 > cap then
      var r := list[1..] + [x];
      assert r[..|r| - 1] == list[1..];
      r
    else
      var r := list + [x];
      assert r[..|r| - 1] == list;
      r
  }

  // ---- saveAnswers / getAnswers / clearAnswers, saveDemographics / getDemographics

  function SaveAnswers(st: Store, answers: map<int, int>): (st': Store)
    ensures UnchangedExcept(st, st', {CurrentAnswersKey})
  {
    st[CurrentAnswersKey := AnswerMap(answers)]
  }

  function GetAnswers(st: Store): (r: Option<map<int, int>>)
    ensures r.Some? <==> CurrentAnswersKey in st && st[CurrentAnswersKey].AnswerMap?
    ensures r.Some? ==> r.value == st[CurrentAnswersKey].answers
  {
    if CurrentAnswersKey in st && st[CurrentAnswersKey].AnswerMap? then Some(st[CurrentAnswersKey].answers) else None
  }

  function ClearAnswers(st: Store): (st': Store)
    ensures CurrentAnswersKey !in st'
    ensures UnchangedExcept(st, st', {CurrentAnswersKey})
  {
    st - {CurrentAnswersKey}
  }

  lemma AnswersRoundTrip(st: Store, answers: map<int, int>)
    ensures GetAnswers(SaveAnswers(st, answers)) == Some(answers)
    ensures GetAnswers(ClearAnswers(st)) == None
  {
  }

  function SaveDemographics(st: Store, d: Demographics): (st': Store)
    ensures UnchangedExcept(st, st', {UserDemographicsKey})
  {
    st[UserDemographicsKey := DemographicsValue(d)]
  }

  function GetDemographics(st: Store): (r: Option<Demographics>)
    ensures r.Some? <==> UserDemographicsKey in st && st[UserDemographicsKey].DemographicsValue?
    ensures r.Some? ==> r.value == st[UserDemographicsKey].demographics
  {
    if UserDemographicsKey in st && st[UserDemographicsKey].DemographicsValue?
    then Some(st[UserDemographicsKey].demographics) else None
  }

  lemma DemographicsRoundTrip(st: Store, d: Demographics)
    ensures GetDemographics(SaveDemographics(st, d)) == Some(d)
  {
  }

  // ---- saveResult / getResults / getLatestResult

  /** getResults: the anonymous result list, empty when nothing is stored. */
  function GetResults(st: Store): (results: seq<AssessmentResult>)
    ensures AssessmentResultsKey !in st ==> results == []
    ensures AssessmentResultsKey in st && st[AssessmentResultsKey].ResultList? ==>
      results == st[AssessmentResultsKey].results
  {
    ReadResults(st, AssessmentResultsKey)
  }

  /** saveResult: append to the anonymous result list, keeping at most 10. */
  function SaveResult(st: Store, r: AssessmentResult): (st': Store)
    ensures UnchangedExcept(st, st', {AssessmentResultsKey})
    ensures var before, after := GetResults(st), GetResults(st');
      && |after| > 0 && after[|after| - 1] == r
      && (|before| < MaxResults ==> after == before + [r])
      && (|before| >= MaxResults ==> after == before[1..] + [r])
  {
    var before := GetResults(st);
    var after := AppendCapped(before, r, MaxResults);
    assert after == after[..|after| - 1] + [r];
    st[AssessmentResultsKey := ResultList(after)]
  }

  /** getLatestResult: the last stored result, null for an empty list. */
  function GetLatestResult(st: Store): (r: Option<AssessmentResult>)
    ensures r.None? <==> |GetResults(st)| == 0
    ensures r.Some? ==> r.value == GetResults(st)[|GetResults(st)| - 1]
  {
    var results := GetResults(st);
    if |results| > 0 then Some(results[|results| - 1]) else None
  }

  /** The result just saved is the latest one. */
  lemma LatestAfterSave(st: Store, r: AssessmentResult)
    ensures GetLatestResult(SaveResult(st, r)) == Some(r)
  {
  }

  /** A list within the cap stays within it. */
  lemma SaveResultKeepsCap(st: Store, r: AssessmentResult)
    requires |GetResults(st)| <= MaxResults
    ensures |GetResults(SaveResult(st, r))| <= MaxResults
  {
  }

  // ---- saveUserResult / getUserResults

  /** getUserResults: one user's history, empty when nothing is stored. */
  function GetUserResults(st: Store, userId: string): (results: seq<AssessmentResult>)
    ensures HistoryKey(userId) !in st ==> results == []
    ensures HistoryKey(userId) in st && st[HistoryKey(userId)].ResultList? ==>
      results == st[HistoryKey(userId)].results
  {
    ReadResults(st, HistoryKey(userId))
  }

  /** The history already holds a result with this timestamp. */
  predicate HasTimestamp(results: seq<AssessmentResult>, timestamp: string) {
    exists i :: 0 <= i < |results| && results[i].timestamp == timestamp
  }

  /** The fixed keys and the per-user keys are all distinct. */
  lemma HistoryKeyIsDistinct(userId: string)
    ensures HistoryKey(userId) != LatestResultKey && HistoryKey(userId) != TempResultKey
    ensures HistoryKey(userId) != AssessmentResultsKey
  {
    assert HistoryKey(userId)[4] == 'r';
  }

  /** The history half of saveUserResult for a signed-in user. */
  function AddToHistory(st: Store, r: AssessmentResult, userId: string): (st': Store)
    ensures HasTimestamp(GetUserResults(st, userId), r.timestamp) ==> st' == st
    ensures !HasTimestamp(GetUserResults(st, userId), r.timestamp) ==>
      && UnchangedExcept(st, st', {HistoryKey(userId)})
      && GetUserResults(st', userId) == AppendCapped(GetUserResults(st, userId), r, MaxUserResults)
  {
    var before := GetUserResults(st, userId);
    if HasTimestamp(before, r.timestamp) then st
    else st[HistoryKey(userId) := ResultList(AppendCapped(before, r, MaxUserResults))]
  }

  /** saveUserResult. With a user id: append to that user's history unless a
      result with the same timestamp is already there, keeping at most 20 by
      dropping the oldest. Without one: store it as the temporary result.
      Either way it is written under the latest-result key, which
      getLatestResult does not read. */
  function SaveUserResult(st: Store, r: AssessmentResult, userId: Option<string>): (st': Store)
    ensures ReadResult(st', LatestResultKey) == Some(r)
    ensures !Truthy(userId) ==> ReadResult(st', TempResultKey) == Some(r)
    ensures !Truthy(userId) ==> UnchangedExcept(st, st', {TempResultKey, LatestResultKey})
    ensures Truthy(userId) && HasTimestamp(GetUserResults(st, userId.value), r.timestamp) ==>
      UnchangedExcept(st, st', {LatestResultKey})
    ensures Truthy(userId) && !HasTimestamp(GetUserResults(st, userId.value), r.timestamp) ==>
      && UnchangedExcept(st, st', {HistoryKey(userId.value), LatestResultKey})
      && var before, after := GetUserResults(st, userId.value), GetUserResults(st', userId.value);
         && |after| > 0 && after[|after| - 1] == r
         && (|before| < MaxUserResults ==> after == before + [r])
         && (|before| >= MaxUserResults ==> after == before[1..] + [r])
  {
    if Truthy(userId) then
      HistoryKeyIsDistinct(userId.value);
      var withHistory := AddToHistory(st, r, userId.value);
      withHistory[LatestResultKey := SingleResult(r)]
    else
      st[TempResultKey := SingleResult(r)][LatestResultKey := SingleResult(r)]
  }

  /** saveUserResult never touches the anonymous result list, so
      getLatestResult sees no change. */
  lemma SaveUserResultLeavesLatestResultAlone(st: Store, r: AssessmentResult, userId: Option<string>)
    ensures GetResults(SaveUserResult(st, r, userId)) == GetResults(st)
    ensures GetLatestResult(SaveUserResult(st, r, userId)) == GetLatestResult(st)
  {
    if Truthy(userId) {
      HistoryKeyIsDistinct(userId.value);
    }
  }

  /** A history within 20 entries stays within 20; the cap is kept, not
      restored: a longer history only loses one entry per save. */
  lemma UserHistoryCapPreserved(st: Store, r: AssessmentResult, userId: string)
    requires userId != ""
    ensures var before, after := GetUserResults(st, userId), GetUserResults(SaveUserResult(st, r, Some(userId)), userId);
      && (|before| <= MaxUserResults ==> |after| <= MaxUserResults)
      && (|before| > MaxUserResults ==> |after| == |before|)
  {
  }

  /** Timestamps of a history. */
  predicate DistinctTimestamps(results: seq<AssessmentResult>) {
    forall i, j :: 0 <= i < j < |results| ==> results[i].timestamp != results[j].timestamp
  }

  /** saveUserResult never puts two results with one timestamp in a history. */
  lemma UserHistoryTimestampsStayDistinct(st: Store, r: AssessmentResult, userId: string)
    requires userId != ""
    requires DistinctTimestamps(GetUserResults(st, userId))
    ensures DistinctTimestamps(GetUserResults(SaveUserResult(st, r, Some(userId)), userId))
  {
    var before := GetUserResults(st, userId);
    var after := GetUserResults(SaveUserResult(st, r, Some(userId)), userId);
    if !HasTimestamp(before, r.timestamp) {
      var kept := after[..|after| - 1];
      assert kept == before[|before| + 1 - |after|..];
      forall i, j | 0 <= i < j < |after|
        ensures after[i].timestamp != after[j].timestamp
      {
        var offset := |before| + 1 - |after|;
        if j == |after| - 1 {
          assert after[i] == before[offset + i];
        } else {
          assert after[i] == before[offset + i] && after[j] == before[offset + j];
        }
      }
    }
  }

  /** Saving the same result twice is the same as saving it once. */
  lemma SaveUserResultIdempotent(st: Store, r: AssessmentResult, userId: Option<string>)
    ensures SaveUserResult(SaveUserResult(st, r, userId), r, userId) == SaveUserResult(st, r, userId)
  {
    var once := SaveUserResult(st, r, userId);
    if Truthy(userId) {
      var u := userId.value;
      HistoryKeyIsDistinct(u);
      var before, after := GetUserResults(st, u), GetUserResults(once, u);
      if HasTimestamp(before, r.timestamp) {
        assert after == before;
      } else {
        assert after[|after| - 1] == r;
      }
      assert HasTimestamp(after, r.timestamp);
      assert AddToHistory(once, r, u) == once;
      assert LatestResultKey in once && once[LatestResultKey] == SingleResult(r);
      assert once[LatestResultKey := SingleResult(r)] == once;
    } else {
      assert once[TempResultKey := SingleResult(r)][LatestResultKey := SingleResult(r)] == once;
    }
  }

  // ---- getTempResult / clearTempResult / migrateTemporaryResult

  /** getTempResult: the result saved before sign-in, null when there is none. */
  function GetTempResult(st: Store): (r: Option<AssessmentResult>)
    ensures TempResultKey !in st ==> r == None
    ensures TempResultKey in st && st[TempResultKey].SingleResult? ==> r == Some(st[TempResultKey].result)
  {
    ReadResult(st, TempResultKey)
  }

  function ClearTempResult(st: Store): (st': Store)
    ensures GetTempResult(st') == None
    ensures UnchangedExcept(st, st', {TempResultKey})
  {
    st - {TempResultKey}
  }

  /** migrateTemporaryResult: move the temporary result to the end of the
      user's history, without de-duplication or cap, and delete it; with no
      temporary result nothing changes. */
  function MigrateTemporaryResult(st: Store, userId: string): (st': Store)
    ensures GetTempResult(st).None? ==> st' == st
    ensures GetTempResult(st).Some? ==>
      && GetUserResults(st', userId) == GetUserResults(st, userId) + [GetTempResult(st).value]
      && TempResultKey !in st'
      && UnchangedExcept(st, st', {HistoryKey(userId), TempResultKey})
  {
    match GetTempResult(st)
    case None => st
    case Some(temp) =>
      HistoryKeyIsDistinct(userId);
      var moved := st[HistoryKey(userId) := ResultList(GetUserResults(st, userId) + [temp])];
      ClearTempResult(moved)
  }

  /** Saving before sign-in and then signing in lands the result at the end
      of the user's history and leaves no temporary result behind. */
  lemma AnonymousSaveThenMigrate(st: Store, r: AssessmentResult, userId: string)
    ensures var st' := MigrateTemporaryResult(SaveUserResult(st, r, None), userId);
      && GetUserResults(st', userId) == GetUserResults(st, userId) + [r]
      && GetTempResult(st') == None
      && ReadResult(st', LatestResultKey) == Some(r)
  {
    HistoryKeyIsDistinct(userId);
  }

  /** A second migration finds nothing to move. */
  lemma MigrateIdempotent(st: Store, userId: string)
    ensures MigrateTemporaryResult(MigrateTemporaryResult(st, userId), userId) == MigrateTemporaryResult(st, userId)
  {
  }

  // ---- program applications

  /** getUserProgramApplications: one owner's applications, empty when
      nothing is stored. */
  function GetUserProgramApplications(st: Store, userId: string): (apps: seq<ProgramApplication>)
    ensures ApplicationsKey(userId) !in st ==> apps == []
    ensures ApplicationsKey(userId) in st && st[ApplicationsKey(userId)].ApplicationList? ==>
      apps == st[ApplicationsKey(userId)].applications
  {
    ReadApplications(st, ApplicationsKey(userId))
  }

  predicate HasApplicationId(apps: seq<ProgramApplication>, id: string) {
    exists i :: 0 <= i < |apps| && apps[i].id == id
  }

  predicate DistinctApplicationIds(apps: seq<ProgramApplication>) {
    forall i, j :: 0 <= i < j < |apps| ==> apps[i].id != apps[j].id
  }

  /** The key saveProgramApplication writes: the user's, else the session's,
      else the "anonymous" one. It is the key the existing list is read from
      exactly when the application has a user id. */
  function WriteKey(app: ProgramApplication): (key: string)
    ensures key == ReadKey(app) <==> Truthy(app.userId)
  {
    if Truthy(app.userId) then ApplicationsKey(app.userId.value)
    else
      var owner := OrElse(app.sessionId, "anonymous");
      ApplicationsKeyInjective(owner, "");
      ApplicationsKey(owner)
  }

  /** The key saveProgramApplication reads the existing list from:
      getUserProgramApplications(application.userId || ''). */
  function ReadKey(app: ProgramApplication): string {
    ApplicationsKey(OrElse(app.userId, ""))
  }

  /** Application keys of different owners are different keys. */
  lemma ApplicationsKeyInjective(a: string, b: string)
    ensures ApplicationsKey(a) == ApplicationsKey(b) <==> a == b
  {
    if ApplicationsKey(a) == ApplicationsKey(b) {
      var n := |ProgramApplicationsKey + "_"|;
      assert a == ApplicationsKey(a)[n..] && b == ApplicationsKey(b)[n..];
    }
  }

  /** saveProgramApplication as written: unless the list read back already
      holds an application with the same id, the application is appended to
      it and the list is stored under the write key. For a signed-in user
      both keys are the user's; without a user id they differ. */
  function SaveProgramApplication(st: Store, app: ProgramApplication): (st': Store)
    ensures HasApplicationId(ReadApplications(st, ReadKey(app)), app.id) ==> st' == st
    ensures !HasApplicationId(ReadApplications(st, ReadKey(app)), app.id) ==>
      && UnchangedExcept(st, st', {WriteKey(app)})
      && ReadApplications(st', WriteKey(app)) == ReadApplications(st, ReadKey(app)) + [app]
  {
    var existing := GetUserProgramApplications(st, OrElse(app.userId, ""));
    if HasApplicationId(existing, app.id) then st
    else st[WriteKey(app) := ApplicationList(existing + [app])]
  }

  /** For a signed-in user an application is stored at most once: ids in the
      user's list stay distinct and the application is in it afterwards. */
  lemma SignedInApplicationStoredOnce(st: Store, app: ProgramApplication)
    requires Truthy(app.userId)
    requires DistinctApplicationIds(GetUserProgramApplications(st, app.userId.value))
    ensures var after := GetUserProgramApplications(SaveProgramApplication(st, app), app.userId.value);
      DistinctApplicationIds(after) && HasApplicationId(after, app.id)
  {
    var before := GetUserProgramApplications(st, app.userId.value);
    var after := GetUserProgramApplications(SaveProgramApplication(st, app), app.userId.value);
    if !HasApplicationId(before, app.id) {
      assert after == before + [app];
      assert after[|after| - 1].id == app.id;
    }
  }

  /** Two applications saved without a user id in one session: the second
      write replaces the first, which is lost, because the list is read from
      the empty-user key and written under the session key. */
  lemma AnonymousApplicationIsLost(a: ProgramApplication, b: ProgramApplication)
    requires !Truthy(a.userId) && !Truthy(b.userId)
    requires a.sessionId == b.sessionId && a.id != b.id
    ensures ReadApplications(SaveProgramApplication(SaveProgramApplication(map[], a), b), WriteKey(a)) == [b]
  {
    ApplicationsKeyInjective("", OrElse(a.sessionId, "anonymous"));
  }

  /** saveProgramApplication as evidently intended: read the list from the
      key it is written back to. */
  function SaveProgramApplicationFixed(st: Store, app: ProgramApplication): (st': Store)
    ensures HasApplicationId(ReadApplications(st, WriteKey(app)), app.id) ==> st' == st
    ensures !HasApplicationId(ReadApplications(st, WriteKey(app)), app.id) ==>
      && UnchangedExcept(st, st', {WriteKey(app)})
      && ReadApplications(st', WriteKey(app)) == ReadApplications(st, WriteKey(app)) + [app]
  {
    var existing := ReadApplications(st, WriteKey(app));
    if HasApplicationId(existing, app.id) then st
    else st[WriteKey(app) := ApplicationList(existing + [app])]
  }

  /** With the fix every owner's list, anonymous sessions included, keeps
      distinct ids and gains the application. */
  lemma FixedApplicationStoredOnce(st: Store, app: ProgramApplication)
    requires DistinctApplicationIds(ReadApplications(st, WriteKey(app)))
    ensures var after := ReadApplications(SaveProgramApplicationFixed(st, app), WriteKey(app));
      DistinctApplicationIds(after) && HasApplicationId(after, app.id)
  {
    var before := ReadApplications(st, WriteKey(app));
    var after := ReadApplications(SaveProgramApplicationFixed(st, app), WriteKey(app));
    if !HasApplicationId(before, app.id) {
      assert after[|after| - 1].id == app.id;
    }
  }

  /** With the fix the anonymous session keeps both applications. */
  lemma FixedAnonymousApplicationsAccumulate(a: ProgramApplication, b: ProgramApplication)
    requires !Truthy(a.userId) && !Truthy(b.userId)
    requires a.sessionId == b.sessionId && a.id != b.id
    ensures ReadApplications(SaveProgramApplicationFixed(SaveProgramApplicationFixed(map[], a), b), WriteKey(a)) == [a, b]
  {
  }

  /** For signed-in users the fix changes nothing. */
  lemma FixAgreesForSignedInUsers(st: Store, app: ProgramApplication)
    requires Truthy(app.userId)
    ensures SaveProgramApplicationFixed(st, app) == SaveProgramApplication(st, app)
  {
  }

  /** applications.map: the matching entries get the new status. */
  function WithStatus(apps: seq<ProgramApplication>, id: string, status: Status): (r: seq<ProgramApplication>)
    ensures |r| == |apps|
    ensures forall i :: 0 <= i < |r| ==> r[i].(status := apps[i].status) == apps[i]
    ensures forall i :: 0 <= i < |r| ==> r[i].status == if apps[i].id == id then status else apps[i].status
  {
    seq(|apps|, i requires 0 <= i < |apps| => if apps[i].id == id then apps[i].(status := status) else apps[i])
  }

  /** updateProgramApplicationStatus: same entries in the same order, only
      the status of those with the id changed; the list is written back even
      when nothing matches. */
  function UpdateProgramApplicationStatus(st: Store, userId: string, id: string, status: Status): (st': Store)
    ensures UnchangedExcept(st, st', {ApplicationsKey(userId)})
    ensures ApplicationsKey(userId) in st'
    ensures var before, after := GetUserProgramApplications(st, userId), GetUserProgramApplications(st', userId);
      && |after| == |before|
      && (forall i :: 0 <= i < |after| && before[i].id != id ==> after[i] == before[i])
      && (forall i :: 0 <= i < |after| && before[i].id == id ==>
            after[i].status == status && after[i].(status := before[i].status) == before[i])
  {
    var applications := GetUserProgramApplications(st, userId);
    st[ApplicationsKey(userId) := ApplicationList(WithStatus(applications, id, status))]
  }

  /** Setting the same status twice is the same as setting it once. */
  lemma UpdateStatusIdempotent(st: Store, userId: string, id: string, status: Status)
    ensures var once := UpdateProgramApplicationStatus(st, userId, id, status);
      UpdateProgramApplicationStatus(once, userId, id, status) == once
  {
    var once := UpdateProgramApplicationStatus(st, userId, id, status);
    var apps := GetUserProgramApplications(once, userId);
    assert WithStatus(apps, id, status) == apps;
  }

  /** The ids of a list, and so its distinctness, survive a status update. */
  lemma UpdateStatusKeepsIds(st: Store, userId: string, id: string, status: Status)
    ensures var before, after := GetUserProgramApplications(st, userId),
      GetUserProgramApplications(UpdateProgramApplicationStatus(st, userId, id, status), userId);
      forall i :: 0 <= i < |before| ==> after[i].id == before[i].id
  {
  }

  // ---- clearAllStorage

  /** The substring every result-history key contains. */
  const HistoryPattern: string := "abo_results_history_"

  /** pattern occurs in s at position i. */
  predicate OccursAt(s: string, pattern: string, i: nat) {
    i + |pattern| <= |s| && s[i..i + |pattern|] == pattern
  }

  /** key.includes(pattern) */
  predicate Contains(s: string, pattern: string) {
    exists i: nat :: i <= |s| && OccursAt(s, pattern, i)
  }

  /** The five keys clearAllStorage removes by name. */
  const ClearedKeys: set<string> :=
    {CurrentUserKey, LatestResultKey, TempResultKey, CurrentAnswersKey, UserDemographicsKey}

  /** clearAllStorage: drop the five named keys and every key containing the
      history pattern; every other key keeps its value. */
  function ClearAllStorage(st: Store): (st': Store)
    ensures forall k :: k in st' <==> k in st && k !in ClearedKeys && !Contains(k, HistoryPattern)
    ensures forall k :: k in st' ==> st'[k] == st[k]
  {
    map k | k in st && k !in ClearedKeys && !Contains(k, HistoryPattern) :: st[k]
  }

  /** Every user's result history is gone afterwards. */
  lemma ClearAllRemovesEveryHistory(st: Store, userId: string)
    ensures HistoryKey(userId) !in ClearAllStorage(st)
  {
    assert OccursAt(HistoryKey(userId), HistoryPattern, 0);
  }

  /** No occurrence of the history pattern can start inside the
      application-key prefix: no 'a' there is followed by "b" and, three
      characters on, by "r". */
  lemma ApplicationsPrefixHasNoPatternStart(i: nat)
    requires i < |ProgramApplicationsKey + "_"|
    ensures var pre := ProgramApplicationsKey + "_";
      pre[i] != 'a' || (i + 1 < |pre| && pre[i + 1] != 'b') || (i + 4 < |pre| && pre[i + 4] != 'r')
  {
  }

  /** The anonymous result list and the program applications of any owner
      whose name does not itself contain the history pattern survive. */
  lemma ClearAllKeepsResultsAndApplications(st: Store, owner: string)
    requires !Contains(owner, HistoryPattern)
    ensures AssessmentResultsKey in st ==>
      AssessmentResultsKey in ClearAllStorage(st) && ClearAllStorage(st)[AssessmentResultsKey] == st[AssessmentResultsKey]
    ensures ApplicationsKey(owner) in st ==>
      ApplicationsKey(owner) in ClearAllStorage(st) && ClearAllStorage(st)[ApplicationsKey(owner)] == st[ApplicationsKey(owner)]
  {
    var p := HistoryPattern;
    var r := AssessmentResultsKey;
    forall i: nat | i <= |r| ensures !OccursAt(r, p, i) {
      if i + |p| <= |r| {
        assert r[i + 4] != p[4];
      }
    }
    var pre := ProgramApplicationsKey + "_";
    var k := ApplicationsKey(owner);
    assert k == pre + owner;
    forall i: nat | i <= |k| ensures !OccursAt(k, p, i) {
      if i + |p| <= |k| {
        if i < |pre| {
          ApplicationsPrefixHasNoPatternStart(i);
          assert k[i] != p[0] || k[i + 1] != p[1] || k[i + 4] != p[4];
        } else {
          assert k[i..i + |p|] == owner[i - |pre|..i - |pre| + |p|];
          assert !OccursAt(owner, p, i - |pre|);
        }
      }
    }
  }

  /** Clearing twice is clearing once. */
  lemma ClearAllIdempotent(st: Store)
    ensures ClearAllStorage(ClearAllStorage(st)) == ClearAllStorage(st)
  {
  }
}
