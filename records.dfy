/**
 * The record types of record.go: a context `Ctx` from keys to values and the
 * `Record` a log call produces.
 */
module Records {
  import opened Wrappers
  import opened Levels

  /** A context value. Log pairs are strings; values passed in a Ctx directly
      may be of any Go type, which the model keeps opaque. */
  datatype Value = Str(text: string) | Opaque(id: nat)

  /** `Ctx`: additional context of a record. */
  type Ctx = map<string, Value>

  /** `Record`: `time` is the creation instant as an opaque number, and
      `logger` the arena index of the originating logger (nil in every record
      the modelled code builds). */
  datatype Record = Record(
    time: nat,
    level: Level,
    message: string,
    context: Ctx,
    logger: Option<nat>)
}
