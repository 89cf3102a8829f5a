/**
 * The QSO draft both revisions edit: an ordered list of fields, each with
 * its ADIF name, its prompt and its current value, and the rule that a
 * non-empty answer replaces a value while an empty answer keeps it.
 */
module Draft {
  import opened Adif

  /** The field names of a draft, in order. */
  function Keys(fs: seq<Field>): (ks: seq<string>)
    ensures |ks| == |fs|
    ensures forall i :: 0 <= i < |fs| ==> ks[i] == fs[i].key
  {
    seq(|fs|, i requires 0 <= i < |fs| => fs[i].key)
  }

  /** The position of the field named `k`, or -1: the entry a dictionary lookup reaches. */
  function KeyIndex(fs: seq<Field>, k: string): (i: int)
    ensures -1 <= i < |fs|
    ensures i == -1 <==> k !in Keys(fs)
    ensures 0 <= i ==> fs[i].key == k && forall j :: 0 <= j < i ==> fs[j].key != k
  {
    if fs == [] then -1
    else if fs[0].key == k then 0
    else
      var j := KeyIndex(fs[1..], k);
      assert Keys(fs) == [fs[0].key] + Keys(fs[1..]);
      if j < 0 then -1 else j + 1
  }

  /** Two drafts with the same names and prompts in the same order. */
  predicate SameShape(a: seq<Field>, b: seq<Field>)
  {
    |a| == |b| && forall i :: 0 <= i < |a| ==> a[i].key == b[i].key && a[i].prompt == b[i].prompt
  }

  /** Drafts of the same shape have the same names. */
  lemma ShapeKeys(a: seq<Field>, b: seq<Field>)
    requires SameShape(a, b)
    ensures Keys(a) == Keys(b)
  {
  }

  /** `if answer: field[1] = answer`. */
  function Answer(f: Field, answer: string): (g: Field)
    ensures g.key == f.key && g.prompt == f.prompt
    ensures g.value == (if answer == "" then f.value else answer)
  {
    if answer != "" then f.(value := answer) else f
  }

  /** The draft after fields `i` up to `k` took the answers at the same positions. */
  function Apply(qs: seq<Field>, i: nat, k: nat, answers: seq<string>): (r: seq<Field>)
    requires i <= k <= |qs| && k <= |answers|
    ensures SameShape(r, qs)
  {
    seq(|qs|, j requires 0 <= j < |qs| => if i <= j < k then Answer(qs[j], answers[j]) else qs[j])
  }

  /** Answering field `i` and then the fields after it is answering from `i` on. */
  lemma ApplyStep(qs: seq<Field>, i: nat, k: nat, answers: seq<string>)
    requires i < k <= |qs| && k <= |answers|
    ensures Apply(qs[i := Answer(qs[i], answers[i])], i + 1, k, answers) == Apply(qs, i, k, answers)
  {
  }

  /** Replacing field `j` before the answers are applied only changes entry `j` of the result. */
  lemma ApplyUpdate(qs: seq<Field>, i: nat, k: nat, answers: seq<string>, j: nat, f: Field)
    requires i <= j < k <= |qs| && k <= |answers|
    ensures Apply(qs[j := f], i, k, answers) == Apply(qs, i, k, answers)[j := Answer(f, answers[j])]
  {
  }

  /** Empty answers leave a draft as it is. */
  lemma ApplyEmpty(qs: seq<Field>, i: nat, k: nat, answers: seq<string>)
    requires i <= k <= |qs| && k <= |answers|
    requires forall j :: i <= j < k ==> answers[j] == ""
    ensures Apply(qs, i, k, answers) == qs
  {
    assert forall j :: 0 <= j < |qs| ==> Apply(qs, i, k, answers)[j] == qs[j];
  }

  /** Answering no field leaves a draft as it is. */
  lemma ApplyNone(qs: seq<Field>, i: nat, answers: seq<string>)
    requires i <= |qs| && i <= |answers|
    ensures Apply(qs, i, i, answers) == qs
  {
  }
}
