/** Library versions. */
module Versions {

  /** Two versions talk to each other when they agree on the leading non-zero component. */
  datatype Version = Version(major: nat, minor: nat, patch: nat) {
    predicate Compatible(other: Version) {
      if major == 0 && other.major == 0 then minor == other.minor else major == other.major
    }
  }

  /** The line a version belongs to: its major number, or, before 1.0, its minor number. */
  datatype Line = Stable(major: nat) | Early(minor: nat)

  function LineOf(v: Version): Line { if v.major > 0 then Stable(v.major) else Early(v.minor) }

  /** Two versions are compatible if and only if they belong to one line; so compatibility is an equivalence. */
  lemma CompatibleIffSameLine(a: Version, b: Version)
    ensures a.Compatible(b) <==> LineOf(a) == LineOf(b)
  {
  }
}
