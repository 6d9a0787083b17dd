/**
 * The parts of the JavaScript runtime the parser calls but does not define,
 * taken as parameters: the `Date` constructors and the regular-expression
 * engine. Nothing is assumed about them.
 */
module Runtime {

  /**
   * `localEpoch(y, monthIndex, d, h, mi, s, ms)` is
   * `new Date(y, monthIndex, d, h, mi, s, ms).getTime()` in the host's time
   * zone (`monthIndex` counts from 0); `utcEpoch(y, month, d, h, mi, s, ms)`
   * is the epoch of the ISO 8601 text `y-month-dTh:mi:s.msZ` (`month` counts
   * from 1).
   */
  datatype DateLib = DateLib(
    localEpoch: (int, int, int, int, int, int, int) -> int,
    utcEpoch: (int, int, int, int, int, int, int) -> int)

  /**
   * `compiles(source, flags)` holds when `new RegExp(source, flags)` does not
   * throw; `test(source, flags, text)` is `re.test(text)` for that expression.
   */
  datatype RegexEngine = RegexEngine(
    compiles: (string, string) -> bool,
    test: (string, string, string) -> bool)
}
