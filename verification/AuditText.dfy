/** Text as the audit trail stores it: trimmed, without control characters, cut to a length. */
module AuditText {
  /** The characters that trimming removes. */
  predicate IsSpace(c: char) {
    '\t' <= c <= '\r' || c == ' ' || c == '\U{A0}' || c == '\U{1680}' || '\U{2000}' <= c <= '\U{200A}'
    || c == '\U{2028}' || c == '\U{2029}' || c == '\U{202F}' || c == '\U{205F}' || c == '\U{3000}' || c == '\U{FEFF}'
  }

  predicate IsControl(c: char) {
    c <= '\U{8}' || c == '\U{B}' || c == '\U{C}' || '\U{E}' <= c <= '\U{1F}'
  }

  function TrimLeft(s: string): string {
    if s != "" && IsSpace(s[0]) then TrimLeft(s[1..]) else s
  }

  function TrimRight(s: string): string {
    if s != "" && IsSpace(s[|s| - 1]) then TrimRight(s[..|s| - 1]) else s
  }

  function Trim(s: string): string { TrimRight(TrimLeft(s)) }

  function StripControls(s: string): string {
    if s == "" then "" else if IsControl(s[0]) then StripControls(s[1..]) else [s[0]] + StripControls(s[1..])
  }

  function Cut(s: string, max: nat): string { if |s| > max then s[..max] else s }

  function Bounded(s: string, max: nat): string { Cut(StripControls(s), max) }

  function Sanitize(s: string, max: nat): string { Bounded(Trim(s), max) }

  lemma {:induction false} StripIdempotent(s: string)
    ensures StripControls(StripControls(s)) == StripControls(s)
    ensures forall i :: 0 <= i < |StripControls(s)| ==> !IsControl(StripControls(s)[i])
  {
    if s != "" {
      StripIdempotent(s[1..]);
      if !IsControl(s[0]) {
        assert ([s[0]] + StripControls(s[1..]))[1..] == StripControls(s[1..]);
      }
    }
  }

  lemma {:induction false} StripClean(s: string)
    requires forall i :: 0 <= i < |s| ==> !IsControl(s[i])
    ensures StripControls(s) == s
  {
    if s != "" { StripClean(s[1..]); }
  }

  /** Bounding twice, with the same or a larger limit, is bounding once. */
  lemma BoundedIdempotent(s: string, max: nat, max': nat)
    requires max <= max'
    ensures |Bounded(s, max)| <= max
    ensures Bounded(Bounded(s, max), max') == Bounded(s, max)
  {
    StripIdempotent(s);
    StripClean(Bounded(s, max));
  }
}
