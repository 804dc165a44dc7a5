/**
 The scoring of a review against labelled issues (runPrEval in
 backend/src/modules/evaluation/services/evaluation.service.ts): a greedy matcher, proved to
 reach the size of a largest one-to-one matching.
 */
module PrEval {
  /** What a finding and a label are compared by; the line of a finding plays no part. */
  datatype Key = Key(category: string, file: string)

  datatype Result = Result(truePositives: nat, falsePositives: nat, falseNegatives: nat, precision: real, recall: real)

  // ----- matchings -----

  /** Findings are paired with labels of the same key, no label twice. */
  ghost predicate IsMatching(findings: seq<Key>, labels: seq<Key>, m: map<nat, nat>) {
    && (forall i :: i in m ==> i < |findings| && m[i] < |labels| && findings[i] == labels[m[i]])
    && (forall i, j :: i in m && j in m && m[i] == m[j] ==> i == j)
  }

  /** The sum over all keys of the smaller of its two counts. */
  function Common(findings: seq<Key>, labels: seq<Key>): nat {
    |multiset(findings) * multiset(labels)|
  }

  /** The keys at the chosen positions below n. */
  ghost function KeysAt(keys: seq<Key>, chosen: set<nat>, n: nat): multiset<Key>
    requires n <= |keys|
  {
    if n == 0 then multiset{}
    else
      var before := KeysAt(keys, chosen, n - 1);
      if n - 1 in chosen then before + multiset{keys[n - 1]} else before
  }

  ghost function Keys(keys: seq<Key>, chosen: set<nat>): multiset<Key> {
    KeysAt(keys, chosen, |keys|)
  }

  lemma TakeOneMore(keys: seq<Key>, n: nat)
    requires n < |keys|
    ensures multiset(keys[..n + 1]) == multiset(keys[..n]) + multiset{keys[n]}
  {
    assert keys[..n + 1] == keys[..n] + [keys[n]];
  }

  predicate AllChosen(keys: seq<Key>, chosen: set<nat>, n: nat, k: Key)
    requires n <= |keys|
  {
    forall i :: 0 <= i < n && keys[i] == k ==> i in chosen
  }

  /** Chosen keys are among all keys, and miss none of key k only if no unchosen position has it. */
  lemma {:induction false} KeysAreAmong(keys: seq<Key>, chosen: set<nat>, n: nat, k: Key)
    requires n <= |keys|
    ensures KeysAt(keys, chosen, n)[k] <= multiset(keys[..n])[k]
    ensures KeysAt(keys, chosen, n)[k] == multiset(keys[..n])[k] <==> AllChosen(keys, chosen, n, k)
  {
    if n == 0 {
    } else {
      KeysAreAmong(keys, chosen, n - 1, k);
      TakeOneMore(keys, n - 1);
      OneMorePosition(keys, chosen, n - 1, k);
    }
  }

  lemma OneMorePosition(keys: seq<Key>, chosen: set<nat>, n: nat, k: Key)
    requires n < |keys|
    ensures AllChosen(keys, chosen, n + 1, k) <==> AllChosen(keys, chosen, n, k) && (keys[n] == k ==> n in chosen)
  {}

  lemma {:induction false} ChooseOneMore(keys: seq<Key>, chosen: set<nat>, n: nat, i: nat)
    requires n <= |keys| && i < |keys| && i !in chosen
    ensures KeysAt(keys, chosen + {i}, n) == KeysAt(keys, chosen, n) + if i < n then multiset{keys[i]} else multiset{}
  {
    if n == 0 {
    } else {
      ChooseOneMore(keys, chosen, n - 1, i);
    }
  }

  /** A matching picks the same keys on both sides, as many as it has pairs. */
  lemma {:induction false} MatchingKeys(findings: seq<Key>, labels: seq<Key>, m: map<nat, nat>)
    requires IsMatching(findings, labels, m)
    ensures Keys(findings, m.Keys) == Keys(labels, m.Values)
    ensures |Keys(findings, m.Keys)| == |m|
    decreases |m|
  {
    if m.Keys == {} {
      NothingChosen(findings, m.Keys, |findings|);
      assert m.Values == {};
      NothingChosen(labels, m.Values, |labels|);
    } else {
      var i: nat :| i in m;
      var rest := m - {i};
      assert m.Keys == rest.Keys + {i};
      assert m.Values == rest.Values + {m[i]} by {
        forall v | v in m.Values ensures v in rest.Values + {m[i]} {
          var j :| j in m && m[j] == v;
          if j != i { assert j in rest && rest[j] == v; }
        }
      }
      assert m[i] !in rest.Values;
      MatchingKeys(findings, labels, rest);
      ChooseOneMore(findings, rest.Keys, |findings|, i);
      ChooseOneMore(labels, rest.Values, |labels|, m[i]);
    }
  }

  lemma {:induction false} NothingChosen(keys: seq<Key>, chosen: set<nat>, n: nat)
    requires n <= |keys| && chosen == {}
    ensures KeysAt(keys, chosen, n) == multiset{}
  {
    if n == 0 {
    } else {
      NothingChosen(keys, chosen, n - 1);
    }
  }

  lemma {:induction false} SmallerMultiset(a: multiset<Key>, b: multiset<Key>)
    requires a <= b
    ensures |a| <= |b|
  {
    assert b == a + (b - a);
  }

  /** No one-to-one matching has more pairs than the common count. */
  lemma NoMatchingIsLarger(findings: seq<Key>, labels: seq<Key>, m: map<nat, nat>)
    requires IsMatching(findings, labels, m)
    ensures |m| <= Common(findings, labels)
  {
    MatchingKeys(findings, labels, m);
    var keys := Keys(findings, m.Keys);
    assert findings[..|findings|] == findings && labels[..|labels|] == labels;
    forall k ensures keys[k] <= (multiset(findings) * multiset(labels))[k] {
      KeysAreAmong(findings, m.Keys, |findings|, k);
      KeysAreAmong(labels, m.Values, |labels|, k);
    }
    SmallerMultiset(keys, multiset(findings) * multiset(labels));
  }

  // ----- the code -----

  /** labeledIssues.findIndex: the first label that is not matched yet and has the finding's key. */
  method FindMatch(labels: seq<Key>, matched: set<nat>, key: Key) returns (found: bool, index: nat)
    ensures found ==> index < |labels| && index !in matched && labels[index] == key
    ensures found ==> forall i :: 0 <= i < index && labels[i] == key ==> i in matched
    ensures !found ==> forall i :: 0 <= i < |labels| && labels[i] == key ==> i in matched
  {
    index := 0;
    while index < |labels|
      invariant index <= |labels|
      invariant forall i :: 0 <= i < index && labels[i] == key ==> i in matched
    {
      if index !in matched && labels[index] == key {
        return true, index;
      }
      index := index + 1;
    }
    found := false;
  }

  /** What the greedy loop has matched after the first n findings. */
  ghost predicate Progress(findings: seq<Key>, labels: seq<Key>, n: nat, matched: set<nat>, m: map<nat, nat>) {
    && n <= |findings| && IsMatching(findings, labels, m) && m.Values == matched && (forall i :: i in m ==> i < n)
    && Keys(labels, matched) == multiset(findings[..n]) * multiset(labels)
  }

  lemma MatchOneMore(findings: seq<Key>, labels: seq<Key>, n: nat, matched: set<nat>, m: map<nat, nat>, index: nat)
    requires Progress(findings, labels, n, matched, m) && n < |findings|
    requires index < |labels| && index !in matched && labels[index] == findings[n]
    ensures Progress(findings, labels, n + 1, matched + {index}, m[n := index])
  {
    var key := findings[n];
    TakeOneMore(findings, n);
    assert labels[..|labels|] == labels;
    KeysAreAmong(labels, matched, |labels|, key);
    ChooseOneMore(labels, matched, |labels|, index);
    assert Keys(labels, matched + {index}) == multiset(findings[..n + 1]) * multiset(labels);
    var m' := m[n := index];
    assert m'.Values == matched + {index} by {
      assert m'[n] == index;
      forall v | v in matched ensures v in m'.Values {
        var i :| i in m && m[i] == v;
        assert m'[i] == v;
      }
    }
    assert forall i :: i in m ==> m[i] in matched;
  }

  lemma NothingToMatch(findings: seq<Key>, labels: seq<Key>, n: nat, matched: set<nat>, m: map<nat, nat>)
    requires Progress(findings, labels, n, matched, m) && n < |findings|
    requires forall i :: 0 <= i < |labels| && labels[i] == findings[n] ==> i in matched
    ensures Progress(findings, labels, n + 1, matched, m)
  {
    TakeOneMore(findings, n);
    assert labels[..|labels|] == labels;
    KeysAreAmong(labels, matched, |labels|, findings[n]);
    assert Keys(labels, matched) == multiset(findings[..n + 1]) * multiset(labels);
  }

  function Ratio(part: nat, whole: nat): real {
    if whole > 0 then part as real / whole as real else 0.0
  }

  /** runPrEval after the review has returned its findings. */
  method RunPrEval(findings: seq<Key>, labels: seq<Key>) returns (r: Result, ghost matching: map<nat, nat>)
    ensures r.truePositives == Common(findings, labels)
    ensures r.truePositives + r.falsePositives == |findings|
    ensures r.truePositives + r.falseNegatives == |labels|
    ensures r.precision == Ratio(r.truePositives, |findings|) && r.recall == Ratio(r.truePositives, |labels|)
    ensures IsMatching(findings, labels, matching) && |matching| == r.truePositives
  {
    var matched: set<nat> := {};
    var truePositives, falsePositives := 0, 0;
    matching := map[];
    NothingChosen(labels, {}, |labels|);
    for n := 0 to |findings|
      invariant Progress(findings, labels, n, matched, matching)
      invariant truePositives == |matched| == |matching| && truePositives + falsePositives == n
    {
      var found, index := FindMatch(labels, matched, findings[n]);
      if found {
        MatchOneMore(findings, labels, n, matched, matching, index);
        matched := matched + {index};
        matching := matching[n := index];
        truePositives := truePositives + 1;
      } else {
        NothingToMatch(findings, labels, n, matched, matching);
        falsePositives := falsePositives + 1;
      }
    }
    assert findings[..|findings|] == findings;
    MatchingKeys(findings, labels, matching);
    CommonIsBounded(findings, labels);
    var falseNegatives := |labels| - |matched|;
    r := Result(truePositives, falsePositives, falseNegatives,
                if truePositives + falsePositives > 0 then truePositives as real / (truePositives + falsePositives) as real else 0.0,
                if |labels| > 0 then truePositives as real / |labels| as real else 0.0);
  }

  lemma CommonIsBounded(findings: seq<Key>, labels: seq<Key>)
    ensures Common(findings, labels) <= |findings| && Common(findings, labels) <= |labels|
  {
    var f, l := multiset(findings), multiset(labels);
    SmallerMultiset(f * l, f);
    SmallerMultiset(f * l, l);
  }

  // ----- what the scores mean -----

  lemma CommonIsAllIff(a: multiset<Key>, b: multiset<Key>)
    ensures |a * b| == |a| <==> a <= b
  {
    assert a == a * b + (a - b);
    if a <= b {
      assert a * b == a;
    } else {
      var k :| a[k] > b[k];
      assert k in a - b;
    }
  }

  /** Every finding is right if and only if its key is not reported more often than it is labelled. */
  lemma PerfectPrecisionIff(findings: seq<Key>, labels: seq<Key>)
    requires findings != []
    ensures Ratio(Common(findings, labels), |findings|) == 1.0 <==> multiset(findings) <= multiset(labels)
  {
    CommonIsAllIff(multiset(findings), multiset(labels));
    RatioIsOneIff(Common(findings, labels), |findings|);
  }

  /** Every labelled issue is found if and only if its key is reported at least as often as it is labelled. */
  lemma PerfectRecallIff(findings: seq<Key>, labels: seq<Key>)
    requires labels != []
    ensures Ratio(Common(findings, labels), |labels|) == 1.0 <==> multiset(labels) <= multiset(findings)
  {
    CommonIsAllIff(multiset(labels), multiset(findings));
    assert multiset(labels) * multiset(findings) == multiset(findings) * multiset(labels);
    RatioIsOneIff(Common(findings, labels), |labels|);
  }

  lemma RatioIsOneIff(part: nat, whole: nat)
    requires whole > 0
    ensures Ratio(part, whole) == 1.0 <==> part == whole
  {
    var x, y := part as real, whole as real;
    assert Ratio(part, whole) * y == x;
  }

  /** The score depends on neither order. */
  lemma OrderDoesNotMatter(findings: seq<Key>, findings': seq<Key>, labels: seq<Key>, labels': seq<Key>)
    requires multiset(findings) == multiset(findings') && multiset(labels) == multiset(labels')
    ensures Common(findings, labels) == Common(findings', labels')
    ensures |findings| == |findings'| && |labels| == |labels'|
  {
    assert |multiset(findings)| == |multiset(findings')|;
    assert |multiset(labels)| == |multiset(labels')|;
  }
}
