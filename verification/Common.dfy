/** Definitions every other module shares. */
module Common {

  datatype Option<+T> = None | Some(value: T)

  /** What one remote call reports.  `Err` stands for every error the Go code
      hands back to its caller without looking inside it. */
  datatype Reply<+T> = Ok(value: T) | Err

  /** How one call to Harbor or to the API server goes wrong: not at all, before
      it took effect, or after (the effect is there, the answer is lost). */
  datatype Fault = Fine | Before | After

  /** A Go map read: an absent key reads as the empty string. */
  function Lookup(m: map<string, string>, key: string): string {
    if key in m then m[key] else ""
  }
}
