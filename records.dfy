/** The two records the reviewer passes between its stages. */
module Records {

  datatype Option<T> = None | Some(value: T)

  /** Java's `int`. */
  type Int32 = x: int | -0x8000_0000 <= x <= 0x7fff_ffff

  /** `Integer.MAX_VALUE`. */
  const IntMax: Int32 := 0x7fff_ffff

  /** One file's part of a unified diff: the path after `b/` and the chunk
      of the diff, header line included. */
  datatype FileDiff = FileDiff(path: string, content: string)

  /** One reported issue; `line` is a nullable `Integer`. */
  datatype Finding = Finding(
    file: string,
    line: Option<Int32>,
    severity: string,
    title: string,
    detail: string,
    suggestion: string)
}
