/** The train job record and its helpers (app/app.py): the `JobState`
    enumeration, the `Train` row, `serialize`, `update_job_state` and
    `validate_train_submission_record`. */
module App {
  import opened Results

  /** `class JobState(enum.Enum)`: the six states of a train job. */
  datatype JobState =
    | TrainRegistered
    | TrainDownloaded
    | TrainProcessedSuccess
    | TrainProcessedError
    | TrainPushedBack
    | Error

  /** The member's Python name. */
  function Name(s: JobState): string {
    match s
    case TrainRegistered => "TRAIN_REGISTERED"
    case TrainDownloaded => "TRAIN_DOWNLOADED"
    case TrainProcessedSuccess => "TRAIN_PROCESSED_SUCCESS"
    case TrainProcessedError => "TRAIN_PROCESSED_ERROR"
    case TrainPushedBack => "TRAIN_PUSHED_BACK"
    case Error => "ERROR"
  }

  /** The member's `.value`, as declared in the class body. */
  function Value(s: JobState): string {
    match s
    case TrainRegistered => "TRAIN_REGISTERED"
    case TrainDownloaded => "TRAIN_DOWNLOADED"
    case TrainProcessedSuccess => "TRAIN_PROCESSED_SUCCESS"
    case TrainProcessedError => "TRAIN_PROCESSED_ERROR"
    case TrainPushedBack => "TRAIN_PUSHED_BACK"
    case Error => "ERROR"
  }

  const AllStates: set<JobState> :=
    {TrainRegistered, TrainDownloaded, TrainProcessedSuccess, TrainProcessedError, TrainPushedBack, Error}

  /** `JobState(v)`: the member whose value is `v`, if there is one
      (Python raises `ValueError` otherwise). */
  function FromValue(v: string): (r: Option<JobState>)
    ensures r.Some? ==> Value(r.value) == v
  {
    if v == "TRAIN_REGISTERED" then Some(TrainRegistered)
    else if v == "TRAIN_DOWNLOADED" then Some(TrainDownloaded)
    else if v == "TRAIN_PROCESSED_SUCCESS" then Some(TrainProcessedSuccess)
    else if v == "TRAIN_PROCESSED_ERROR" then Some(TrainProcessedError)
    else if v == "TRAIN_PUSHED_BACK" then Some(TrainPushedBack)
    else if v == "ERROR" then Some(Error)
    else None
  }

  /** The enumeration is closed, has exactly six members, and each member's
      value is its name. */
  lemma JobStateClosed()
    ensures forall s: JobState :: s in AllStates
    ensures |AllStates| == 6
    ensures forall s: JobState :: Value(s) == Name(s)
  {
    forall s: JobState ensures s in AllStates {
      match s
      case TrainRegistered =>
      case TrainDownloaded =>
      case TrainProcessedSuccess =>
      case TrainProcessedError =>
      case TrainPushedBack =>
      case Error =>
    }
  }

  /** Looking a member up by its value finds exactly that member, and no
      other string finds anything. */
  lemma FromValueInverse(v: string, s: JobState)
    ensures FromValue(v) == Some(s) <==> Value(s) == v
  {
  }

  /** The `Train` table row. `trainID` and `registry_uri` are non-nullable;
      `filepath` and `state` may be NULL. */
  datatype Train = Train(
    id: int,
    trainID: string,
    registryUri: string,
    filepath: Option<string>,
    state: Option<JobState>)

  /** A Python value of the kinds `serialize` produces. */
  datatype PyValue = PyInt(i: int) | PyStr(s: string) | PyNone

  const SerializedKeys: set<string> := {"id", "trainID", "registry_uri", "filepath", "state"}

  const StatePrefix: string := "JobState."

  /** `str(self.state)`: `JobState.<name>` for a member, `None` for NULL. */
  function StateString(st: Option<JobState>): (r: string)
    ensures st.Some? ==> |r| > |StatePrefix| && r[..|StatePrefix|] == StatePrefix
                         && r[|StatePrefix|..] == Name(st.value)
    ensures st.None? ==> r == "None"
  {
    match st
    case Some(s) => StatePrefix + Name(s)
    case None => "None"
  }

  /** `Train.serialize()`. */
  function Serialize(t: Train): (r: map<string, PyValue>)
    ensures r.Keys == SerializedKeys
    ensures r["id"] == PyInt(t.id)
    ensures r["trainID"] == PyStr(t.trainID) && r["registry_uri"] == PyStr(t.registryUri)
    ensures r["filepath"] == (if t.filepath.Some? then PyStr(t.filepath.value) else PyNone)
    ensures r["state"] == PyStr(StateString(t.state))
  {
    map[
      "id" := PyInt(t.id),
      "trainID" := PyStr(t.trainID),
      "registry_uri" := PyStr(t.registryUri),
      "filepath" := (match t.filepath case Some(f) => PyStr(f) case None => PyNone),
      "state" := PyStr(StateString(t.state))]
  }

  /** The member named `n`, if any. */
  function FromName(n: string): (r: Option<JobState>)
    ensures r.Some? ==> Name(r.value) == n
  {
    FromValue(n)
  }

  /** Reads a `str(state)` back. */
  function ParseStateString(s: string): Option<Option<JobState>> {
    if s == "None" then Some(None)
    else if |s| > |StatePrefix| && s[..|StatePrefix|] == StatePrefix then
      match FromName(s[|StatePrefix|..])
      case Some(st) => Some(Some(st))
      case None => None
    else None
  }

  /** Rebuilds a row from its serialized form; the reference against which
      `serialize` is shown to lose nothing. */
  function Deserialize(m: map<string, PyValue>): Option<Train> {
    if SerializedKeys <= m.Keys && m["id"].PyInt? && m["trainID"].PyStr? && m["registry_uri"].PyStr?
       && (m["filepath"].PyStr? || m["filepath"].PyNone?) && m["state"].PyStr?
    then
      match ParseStateString(m["state"].s)
      case Some(st) =>
        Some(Train(m["id"].i, m["trainID"].s, m["registry_uri"].s,
                   if m["filepath"].PyStr? then Some(m["filepath"].s) else None, st))
      case None => None
    else None
  }

  /** `serialize` is lossless: every row can be read back from it. */
  lemma DeserializeSerialize(t: Train)
    ensures Deserialize(Serialize(t)) == Some(t)
  {
    var m := Serialize(t);
    match t.state
    case None =>
    case Some(s) =>
      var str := StateString(t.state);
      assert str != "None" by { assert str[..|StatePrefix|] == StatePrefix; }
      assert FromValue(Name(s)) == Some(s) by { FromValueInverse(Name(s), s); }
  }

  /** Two rows serialize alike only if they are the same row. */
  lemma SerializeInjective(a: Train, b: Train)
    requires Serialize(a) == Serialize(b)
    ensures a == b
  {
    DeserializeSerialize(a);
    DeserializeSerialize(b);
  }

  /** `update_job_state(job, state)`: the row with its state set and every
      other column as it was. */
  function UpdateJobState(job: Train, state: JobState): (r: Train)
    ensures r.state == Some(state)
    ensures r.id == job.id && r.trainID == job.trainID
    ensures r.registryUri == job.registryUri && r.filepath == job.filepath
  {
    job.(state := Some(state))
  }

  /** Setting the same state twice is setting it once. */
  lemma UpdateIdempotent(job: Train, state: JobState)
    ensures UpdateJobState(UpdateJobState(job, state), state) == UpdateJobState(job, state)
  {
  }

  /** Only the last of two updates is visible. */
  lemma UpdateLastWins(job: Train, s1: JobState, s2: JobState)
    ensures UpdateJobState(UpdateJobState(job, s1), s2) == UpdateJobState(job, s2)
  {
  }

  /** An update changes exactly the `state` entry of the serialized row. */
  lemma SerializeAfterUpdate(job: Train, state: JobState)
    ensures Serialize(UpdateJobState(job, state))
            == Serialize(job)["state" := PyStr(StatePrefix + Name(state))]
  {
  }

  /** `validate_train_submission_record(json)`: both `trainID` and
      `registry` keys are present. */
  function ValidateTrainSubmissionRecord<V>(json: map<string, V>): (r: bool)
    ensures r <==> {"trainID", "registry"} <= json.Keys
  {
    "trainID" in json && "registry" in json
  }

  /** Only the presence of the two keys matters: other keys and all values
      are ignored. */
  lemma ValidateOnlyKeysMatter<V>(a: map<string, V>, b: map<string, V>)
    requires "trainID" in a <==> "trainID" in b
    requires "registry" in a <==> "registry" in b
    ensures ValidateTrainSubmissionRecord(a) == ValidateTrainSubmissionRecord(b)
  {
  }
}
