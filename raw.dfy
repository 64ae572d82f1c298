/** Values as the form hands them to the validation schema, before any rule runs. */
module Raw {

  /** Absent (JavaScript `undefined`, or a key the input object does not have) or present. */
  datatype Option<+T> = None | Some(value: T)

  /** A JavaScript value as a field of the submitted form object may hold it.
      `Other` stands for every value no rule of the schema accepts on its kind:
      objects, arrays, functions and the like. */
  datatype Value =
    | Str(s: string)
    | Num(n: real)
    | Bool(b: bool)
    | Null
    | Other
}
