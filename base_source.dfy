/** The metric-safe form of a source's name. */
module BaseSource {

  /** The characters that may not appear in a metric-safe name. */
  predicate IsUnsafe(c: char) {
    c == '/' || c == '.' || c == ' '
  }

  /** Replaces every '/', '.' and ' ' of the name by '_'. */
  function MetricSafeName(name: string): (r: string)
    ensures |r| == |name|
    ensures forall i :: 0 <= i < |name| && IsUnsafe(name[i]) ==> r[i] == '_'
    ensures forall i :: 0 <= i < |name| && !IsUnsafe(name[i]) ==> r[i] == name[i]
    ensures forall i :: 0 <= i < |r| ==> !IsUnsafe(r[i])
  {
    if name == [] then []
    else [if IsUnsafe(name[0]) then '_' else name[0]] + MetricSafeName(name[1..])
  }

  /** A name that is already metric-safe is left as it is. */
  lemma {:induction false} MetricSafeNameOfSafe(name: string)
    requires forall i :: 0 <= i < |name| ==> !IsUnsafe(name[i])
    ensures MetricSafeName(name) == name
  {
    if name != [] {
      MetricSafeNameOfSafe(name[1..]);
    }
  }

  /** Sanitising twice gives the same result as sanitising once. */
  lemma MetricSafeNameIdempotent(name: string)
    ensures MetricSafeName(MetricSafeName(name)) == MetricSafeName(name)
  {
    MetricSafeNameOfSafe(MetricSafeName(name));
  }
}
