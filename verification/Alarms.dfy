/**
 * The table of active alarms, shared by all who raise and clear them (raise_alarm and clear_alarm in
 * backend/genwatch/db.py).
 */
module Alarms {

  /**
   * Alarm codes by origin: generator alarm bits, range checks, the disagreement check and faults of the
   * transfer switch.  The kinds never collide, which is what the RANGE_ and ATS_ prefixes are for.
   */
  datatype Code = Bit(code: string) | Range(register: string) | Disagree | Fault(code: string)

  class AlarmTable {
    var codes: set<Code>

    constructor ()
      ensures codes == {}
    {
      codes := {};
    }

    /** INSERT OR IGNORE: true for a new row. */
    method Raise(code: Code) returns (inserted: bool)
      modifies this
      ensures inserted <==> code !in old(codes)
      ensures codes == old(codes) + {code}
    {
      inserted := code !in codes;
      codes := codes + {code};
    }

    /** DELETE: true when a row went. */
    method Clear(code: Code) returns (removed: bool)
      modifies this
      ensures removed <==> code in old(codes)
      ensures codes == old(codes) - {code}
    {
      removed := code in codes;
      codes := codes - {code};
    }
  }
}
