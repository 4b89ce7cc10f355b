/** encoding/json, as far as anything here depends on it. */
module Encoding {
  import opened Wrappers

  /** Marshal and Unmarshal on one type; None stands for their error. */
  datatype Json<!T(!new)> = Json(marshal: T -> Option<string>, unmarshal: string -> Option<T>)
  {
    /** What was written is read back. */
    ghost predicate Lawful()
    {
      forall v: T :: marshal(v).Some? ==> unmarshal(marshal(v).value) == Some(v)
    }

    /** What was read can be written. */
    ghost predicate Closed()
    {
      forall text: string :: unmarshal(text).Some? ==> marshal(unmarshal(text).value).Some?
    }
  }
}
