/** The `Train` table as an in-memory store (app/app.py). Rows are keyed by
    their primary key `id`; the table declares `trainID`, `registry_uri` and
    `filepath` UNIQUE, and SQL lets any number of rows hold a NULL
    `filepath`. Writing a row (`session.merge` followed by `commit`) either
    keeps those constraints or fails with an integrity error and leaves the
    table as it was. */
module TrainStore {
  import opened Results
  import opened App

  type Store = map<int, Train>

  /** The database's refusal of a write that breaks a UNIQUE column. */
  datatype IntegrityError = UniqueConstraintFailed

  /** Two distinct rows that may not both be in the table. */
  predicate Clash(a: Train, b: Train) {
    || a.trainID == b.trainID
    || a.registryUri == b.registryUri
    || (a.filepath.Some? && a.filepath == b.filepath)
  }

  /** Every row sits under its own primary key. */
  predicate Keyed(st: Store) {
    forall k :: k in st ==> st[k].id == k
  }

  /** No two rows share a `trainID`, a `registry_uri` or a non-NULL `filepath`. */
  predicate Unique(st: Store) {
    forall a, b :: a in st && b in st && a != b ==> !Clash(st[a], st[b])
  }

  predicate Valid(st: Store) {
    Keyed(st) && Unique(st)
  }

  /** Writing `row` would break a UNIQUE column against some other row. */
  predicate Conflicts(st: Store, row: Train) {
    exists k :: k in st && k != row.id && Clash(st[k], row)
  }

  /** `session.merge(row)` then `commit()`: the row replaces the one with its
      primary key (or is inserted), unless that breaks a UNIQUE column. */
  function Merge(st: Store, row: Train): (r: Result<Store, IntegrityError>)
    ensures r.Err? <==> Conflicts(st, row)
    ensures r.Ok? ==> row.id in r.value && r.value[row.id] == row
    ensures r.Ok? ==> r.value.Keys == st.Keys + {row.id}
    ensures r.Ok? ==> forall k :: k in st && k != row.id ==> r.value[k] == st[k]
    ensures Valid(st) && r.Ok? ==> Valid(r.value)
  {
    if Conflicts(st, row) then Err(UniqueConstraintFailed)
    else
      var st' := st[row.id := row];
      assert Valid(st) ==> Valid(st') by {
        if Valid(st) {
          forall a, b | a in st' && b in st' && a != b ensures !Clash(st'[a], st'[b]) {
            if a == row.id {
              assert !Clash(st[b], row);
            } else if b == row.id {
              assert !Clash(st[a], row);
            }
          }
        }
      }
      Ok(st')
  }

  /** `update_job_state(job, state)` on the table: the stored row for `job`
      gets the new state and nothing else in the table changes. For a row
      read from a valid table the write always succeeds and the table stays
      valid. */
  function UpdateStoredJobState(st: Store, job: Train, state: JobState): (r: Result<Store, IntegrityError>)
    ensures r.Ok? ==> r.value.Keys == st.Keys + {job.id}
    ensures r.Ok? ==> r.value[job.id] == UpdateJobState(job, state)
    ensures r.Ok? ==> forall k :: k in st && k != job.id ==> r.value[k] == st[k]
    ensures Valid(st) && job.id in st && st[job.id] == job ==> r.Ok? && Valid(r.value)
  {
    Merge(st, UpdateJobState(job, state))
  }

  /** In a valid table a `trainID` names at most one row. */
  lemma TrainIDIdentifiesRow(st: Store, a: int, b: int)
    requires Valid(st)
    requires a in st && b in st && st[a].trainID == st[b].trainID
    ensures a == b
  {
  }
}
