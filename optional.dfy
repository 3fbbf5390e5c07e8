/** The SQL NULL, where the queries test for it explicitly (IS NULL / IS NOT NULL). */
module Optional {

  datatype Option<+T> = None | Some(value: T)

}
