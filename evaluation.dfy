/** The evaluation at the end of train_CNN (src/train_model.py line 135):
    the class of a row is the index of its largest entry, and sklearn's
    confusion_matrix counts (true class, predicted class) pairs over the
    classes that occur. */
module Evaluation {
  import opened Encoding
  import opened Text

  /** numpy's argmax of one row: the first index holding the largest value. */
  function ArgMax(row: seq<real>): (k: nat)
    requires |row| > 0
    ensures k < |row|
    ensures forall i :: 0 <= i < |row| ==> row[i] <= row[k]
    ensures forall i :: 0 <= i < k ==> row[i] < row[k]
    decreases |row|
  {
    if |row| == 1 then 0
    else
      var k := ArgMax(row[..|row| - 1]);
      if row[|row| - 1] > row[k] then |row| - 1 else k
  }

  /** `m.argmax(axis=1)` */
  function ArgMaxRows(m: seq<seq<real>>): (ks: seq<nat>)
    requires forall i :: 0 <= i < |m| ==> |m[i]| > 0
    ensures |ks| == |m| && forall i :: 0 <= i < |m| ==> ks[i] < |m[i]|
  {
    seq(|m|, i requires 0 <= i < |m| => ArgMax(m[i]))
  }

  function AsReal(rows: seq<seq<int>>): (m: seq<seq<real>>)
    ensures |m| == |rows| && forall i :: 0 <= i < |rows| ==> |m[i]| == |rows[i]|
  {
    seq(|rows|, i requires 0 <= i < |rows| =>
      seq(|rows[i]|, j requires 0 <= j < |rows[i]| => rows[i][j] as real))
  }

  /** The values 0..bound-1 that occur in either sequence, ascending. */
  function Occurring(a: seq<nat>, b: seq<nat>, bound: nat): (cs: seq<nat>)
    ensures forall i :: 0 <= i < |cs| ==> cs[i] < bound
    ensures forall i, j :: 0 <= i < j < |cs| ==> cs[i] < cs[j]
    ensures forall c :: c in cs <==> c < bound && (c in a || c in b)
  {
    if bound == 0 then []
    else Occurring(a, b, bound - 1) + (if bound - 1 in a || bound - 1 in b then [bound - 1] else [])
  }

  /** One more than the largest value, 0 for none. */
  function Bound(a: seq<nat>): (n: nat)
    ensures forall i :: 0 <= i < |a| ==> a[i] < n
  {
    if a == [] then 0 else
      var rest := Bound(a[1..]);
      if a[0] + 1 > rest then a[0] + 1 else rest
  }

  /** sklearn's labels for the matrix: every class that occurs in the true or
      the predicted column, ascending. */
  function Classes(yTrue: seq<nat>, yPred: seq<nat>): (cs: seq<nat>)
    ensures forall i, j :: 0 <= i < j < |cs| ==> cs[i] < cs[j]
    ensures forall c :: c in cs <==> c in yTrue || c in yPred
  {
    var bound := Bound(yTrue + yPred);
    assert forall c :: c in yTrue || c in yPred ==> c in yTrue + yPred;
    Occurring(yTrue, yPred, bound)
  }

  /** How many samples have true class t and predicted class p. */
  function CountPair(yTrue: seq<nat>, yPred: seq<nat>, t: nat, p: nat): nat
    requires |yTrue| == |yPred|
  {
    if yTrue == [] then 0
    else (if yTrue[0] == t && yPred[0] == p then 1 else 0) + CountPair(yTrue[1..], yPred[1..], t, p)
  }

  /** confusion_matrix(y_true, y_pred): rows are true classes, columns
      predicted classes, both in the order of Classes. */
  function ConfusionMatrix(yTrue: seq<nat>, yPred: seq<nat>): (m: seq<seq<nat>>)
    requires |yTrue| == |yPred|
    ensures var cs := Classes(yTrue, yPred);
      |m| == |cs| && forall i :: 0 <= i < |cs| ==> |m[i]| == |cs|
  {
    var cs := Classes(yTrue, yPred);
    seq(|cs|, i requires 0 <= i < |cs| =>
      seq(|cs|, j requires 0 <= j < |cs| => CountPair(yTrue, yPred, cs[i], cs[j])))
  }

  function Sum(xs: seq<nat>): nat
  {
    if xs == [] then 0 else xs[0] + Sum(xs[1..])
  }

  /** Line 135: the confusion matrix of the true and predicted classes of
      the test rows. */
  function Evaluate(yTest: seq<seq<int>>, yPred: seq<seq<real>>): (m: seq<seq<nat>>)
    requires |yTest| == |yPred|
    requires forall i :: 0 <= i < |yTest| ==> |yTest[i]| > 0 && |yPred[i]| > 0
    ensures |m| == |Classes(ArgMaxRows(AsReal(yTest)), ArgMaxRows(yPred))|
    ensures forall i :: 0 <= i < |m| ==> |m[i]| == |m|
  {
    ConfusionMatrix(ArgMaxRows(AsReal(yTest)), ArgMaxRows(yPred))
  }

  // ---------------------------------------------------------------------
  // Row sums of the confusion matrix

  /** The counts of one row of the matrix, for the columns cs. */
  function RowCounts(yTrue: seq<nat>, yPred: seq<nat>, t: nat, cs: seq<nat>): (row: seq<nat>)
    requires |yTrue| == |yPred|
    ensures |row| == |cs| && forall j :: 0 <= j < |cs| ==> row[j] == CountPair(yTrue, yPred, t, cs[j])
  {
    if cs == [] then [] else [CountPair(yTrue, yPred, t, cs[0])] + RowCounts(yTrue, yPred, t, cs[1..])
  }

  /** How many samples have true class t and a predicted class among cs. */
  function CountIn(yTrue: seq<nat>, yPred: seq<nat>, t: nat, cs: seq<nat>): nat
    requires |yTrue| == |yPred|
  {
    if yTrue == [] then 0
    else (if yTrue[0] == t && yPred[0] in cs then 1 else 0) + CountIn(yTrue[1..], yPred[1..], t, cs)
  }

  lemma {:induction false} CountInSplit(yTrue: seq<nat>, yPred: seq<nat>, t: nat, cs: seq<nat>)
    requires |yTrue| == |yPred| && cs != [] && cs[0] !in cs[1..]
    ensures CountIn(yTrue, yPred, t, cs) ==
      CountPair(yTrue, yPred, t, cs[0]) + CountIn(yTrue, yPred, t, cs[1..])
    decreases |yTrue|
  {
    if yTrue != [] {
      CountInSplit(yTrue[1..], yPred[1..], t, cs);
      assert yPred[0] in cs <==> yPred[0] == cs[0] || yPred[0] in cs[1..] by {
        assert cs == [cs[0]] + cs[1..];
      }
    }
  }

  lemma {:induction false} RowSumIsCountIn(yTrue: seq<nat>, yPred: seq<nat>, t: nat, cs: seq<nat>)
    requires |yTrue| == |yPred|
    requires forall i, j :: 0 <= i < j < |cs| ==> cs[i] < cs[j]
    ensures Sum(RowCounts(yTrue, yPred, t, cs)) == CountIn(yTrue, yPred, t, cs)
    decreases |cs|
  {
    if cs == [] {
      CountInNone(yTrue, yPred, t);
    } else {
      RowSumIsCountIn(yTrue, yPred, t, cs[1..]);
      assert cs[0] !in cs[1..] by {
        forall j | 0 <= j < |cs[1..]| ensures cs[1..][j] != cs[0] {
          assert cs[1..][j] == cs[j + 1];
        }
      }
      CountInSplit(yTrue, yPred, t, cs);
    }
  }

  lemma {:induction false} CountInNone(yTrue: seq<nat>, yPred: seq<nat>, t: nat)
    requires |yTrue| == |yPred|
    ensures CountIn(yTrue, yPred, t, []) == 0
    decreases |yTrue|
  {
    if yTrue != [] {
      CountInNone(yTrue[1..], yPred[1..], t);
    }
  }

  lemma {:induction false} CountInAll(yTrue: seq<nat>, yPred: seq<nat>, t: nat, cs: seq<nat>)
    requires |yTrue| == |yPred| && forall k :: 0 <= k < |yPred| ==> yPred[k] in cs
    ensures CountIn(yTrue, yPred, t, cs) == Count(yTrue, t)
    decreases |yTrue|
  {
    if yTrue != [] {
      CountInAll(yTrue[1..], yPred[1..], t, cs);
    }
  }

  /** Row i of the confusion matrix adds up to the number of samples whose
      true class is the i-th class. */
  lemma ConfusionRowSum(yTrue: seq<nat>, yPred: seq<nat>, i: nat)
    requires |yTrue| == |yPred| && i < |Classes(yTrue, yPred)|
    ensures Sum(ConfusionMatrix(yTrue, yPred)[i]) == Count(yTrue, Classes(yTrue, yPred)[i])
  {
    var cs := Classes(yTrue, yPred);
    assert ConfusionMatrix(yTrue, yPred)[i] == RowCounts(yTrue, yPred, cs[i], cs);
    RowSumIsCountIn(yTrue, yPred, cs[i], cs);
    forall k | 0 <= k < |yPred| ensures yPred[k] in cs {
      assert yPred[k] in yPred;
    }
    CountInAll(yTrue, yPred, cs[i], cs);
  }

  /** Row i of the matrix line 135 computes holds every test row whose
      target's argmax is the i-th class, and no other. */
  lemma EvaluateRowSum(yTest: seq<seq<int>>, yPred: seq<seq<real>>)
    requires |yTest| == |yPred|
    requires forall k :: 0 <= k < |yTest| ==> |yTest[k]| > 0 && |yPred[k]| > 0
    ensures forall i :: 0 <= i < |Evaluate(yTest, yPred)| ==>
      Sum(Evaluate(yTest, yPred)[i]) ==
      Count(ArgMaxRows(AsReal(yTest)), Classes(ArgMaxRows(AsReal(yTest)), ArgMaxRows(yPred))[i])
  {
    forall i | 0 <= i < |Evaluate(yTest, yPred)|
      ensures Sum(Evaluate(yTest, yPred)[i]) ==
        Count(ArgMaxRows(AsReal(yTest)), Classes(ArgMaxRows(AsReal(yTest)), ArgMaxRows(yPred))[i])
    {
      ConfusionRowSum(ArgMaxRows(AsReal(yTest)), ArgMaxRows(yPred), i);
    }
  }

  // ---------------------------------------------------------------------
  // Which class is which

  /** The expanded target [y, 1 - y] of an indicator y has its largest entry
      at index 1 - y: a row encoded as 0 is class 1, a row encoded as 1 is
      class 0. */
  lemma TargetClasses(y: seq<int>)
    requires forall k :: 0 <= k < |y| ==> y[k] == 0 || y[k] == 1
    ensures forall k :: 0 <= k < |y| ==> ArgMaxRows(AsReal(Expand(y)))[k] == 1 - y[k]
  {
    forall k | 0 <= k < |y| ensures ArgMaxRows(AsReal(Expand(y)))[k] == 1 - y[k] {
      var row := AsReal(Expand(y))[k];
      assert row[0] == y[k] as real && row[1] == (1 - y[k]) as real;
    }
  }

  /** The comment at line 87: with "dunk" and a class that sorts after it,
      a dunk is encoded [0, 1] and evaluated as class 1, the other class is
      encoded [1, 0] and evaluated as class 0. */
  lemma DunkIsClassOne(labels: seq<string>, other: string)
    requires LexLess("dunk", other) && Distinct(labels) == {"dunk", other}
    ensures Binarize(labels).Ok?
    ensures forall i :: 0 <= i < |labels| ==>
      Expand(Binarize(labels).value)[i] == (if labels[i] == "dunk" then [0, 1] else [1, 0]) &&
      ArgMaxRows(AsReal(Expand(Binarize(labels).value)))[i] == (if labels[i] == "dunk" then 1 else 0)
  {
    BinarizeTwoClasses(labels, "dunk", other);
    TargetClasses(Binarize(labels).value);
  }

  /** Both label sets the scripts train on sort "dunk" first. */
  lemma DunkSortsFirst()
    ensures LexLess("dunk", "jumpshot") && LexLess("dunk", "three")
  {
    assert "dunk"[0] == 'd' && "jumpshot"[0] == 'j' && "three"[0] == 't';
  }
}
