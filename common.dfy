/** Error values shared by the identity, population, projection and recording
    modules (each constructor names the Python exception the simulator layer
    raises at that point), and the notion of a sequence without repeats. */
module Outcomes {

  datatype Error =
    | InvalidArgument        // `assert n > 0` in cell creation
    | InvalidDimensions      // common.InvalidDimensionsError
    | InvalidParameterValue  // common.InvalidParameterValueError
    | NotANumber             // ValueError from float() of a non-numeric string
    | IndexOutOfRange        // IndexError (numpy indexing, address cross-check)
    | WrongArgumentType      // TypeError in setWeights/setDelays
    | LengthMismatch         // assertion on the length of a weight/delay sequence
    | DelayBelowMinimum      // delay smaller than the configured minimum delay
    | EmptySequence          // ValueError from min() of an empty sequence
    | UnsupportedConfiguration // STDP with dendritic_delay_fraction > 0.5 on several processes
    | NotImplemented         // gather=True, recorder reset
    | UnknownFormat          // format other than 'list' or 'array'
    | UnknownVariable        // a recorded variable with no device mapping
    | MissingKey             // KeyError on a dictionary lookup
    | NotFound               // ValueError from list.index
    | BadRecordSelection     // record_from of an unsupported kind
    | NotAStateMonitor       // AttributeError: a spike monitor holds no sampled values

  datatype Result<T> = Ok(value: T) | Err(error: Error)

  datatype Option<T> = None | Some(value: T)

  datatype Outcome = Pass | Fail(error: Error)

  /** No element occurs twice. */
  predicate Distinct<T(==)>(xs: seq<T>)
  {
    forall i, j :: 0 <= i < j < |xs| ==> xs[i] != xs[j]
  }

  /** An element at two positions is counted at least twice. */
  lemma RepeatCounts<T>(s: seq<T>, i: int, j: int)
    requires 0 <= i < j < |s| && s[i] == s[j]
    ensures multiset(s)[s[i]] >= 2
  {
    assert s == s[..j] + s[j..];
    assert s[..j][i] == s[i];
    assert s[j..][0] == s[i];
  }

  /** A sequence without repeats counts each element at most once. */
  lemma {:induction false} DistinctCounts<T>(s: seq<T>, x: T)
    requires Distinct(s)
    ensures multiset(s)[x] <= 1
  {
    if s != [] {
      assert s == [s[0]] + s[1..];
      assert Distinct(s[1..]) by {
        forall i, j | 0 <= i < j < |s[1..]| ensures s[1..][i] != s[1..][j] {
          assert s[1..][i] == s[i + 1] && s[1..][j] == s[j + 1];
        }
      }
      DistinctCounts(s[1..], x);
      if s[0] == x {
        assert x !in s[1..] by {
          forall k | 0 <= k < |s[1..]| ensures s[1..][k] != x {
            assert s[1..][k] == s[k + 1];
          }
        }
      }
    }
  }

  /** Having the same elements as a sequence without repeats, counted with
      multiplicity, rules out repeats. */
  lemma PermutationDistinct<T>(s: seq<T>, t: seq<T>)
    requires Distinct(t) && multiset(s) == multiset(t)
    ensures Distinct(s)
  {
    forall i, j | 0 <= i < j < |s| ensures s[i] != s[j] {
      if s[i] == s[j] {
        RepeatCounts(s, i, j);
        DistinctCounts(t, s[i]);
      }
    }
  }
}
