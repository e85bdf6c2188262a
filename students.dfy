/** The per-student records that the roster normaliser produces and the
    scheduler consumes. */
module Students {
  import opened Wrappers
  import opened Dict

  /** A student's name as pandas holds it: a padded cell of a short row is
      a missing value (`None`), which the model keeps as such. */
  type Name = Option<string>

  /** One row of `df.to_dict(orient='records')`: column label to cell text. */
  type Record = Dict<string>

  /** The `student_data` dictionary handed to the scheduler: the lists
      stored under 'names', 'attributes' and 'availabilities'. */
  datatype StudentData = StudentData(names: seq<Name>, attributes: seq<Record>, availabilities: seq<Record>)
}
