/** The debug-flag check `_debug(*flags)`, with the module-level `_DEBUG`
    list passed in as `enabled`. */
module Debug {

  /** The search loop: does any requested flag appear in `enabled`? */
  function AnyEnabled(enabled: seq<string>, flags: seq<string>): (r: bool)
    ensures r <==> exists i :: 0 <= i < |flags| && flags[i] in enabled
  {
    if |flags| == 0 then false
    else flags[0] in enabled || AnyEnabled(enabled, flags[1..])
  }

  /** `"NONE"` switches everything off, then `"ALL"` switches everything on;
      otherwise a call is on when one of its flags is enabled, and a call
      without flags is always on. */
  function Debug(enabled: seq<string>, flags: seq<string>): (r: bool)
    ensures "NONE" in enabled ==> !r
    ensures "NONE" !in enabled && "ALL" in enabled ==> r
    ensures "NONE" !in enabled && "ALL" !in enabled ==>
              (r <==> |flags| == 0 || exists f :: f in flags && f in enabled)
  {
    if "NONE" in enabled then false
    else if "ALL" in enabled then true
    else if AnyEnabled(enabled, flags) then true
    else |flags| == 0
  }
}
