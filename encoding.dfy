/** The label handling at the start of train_CNN (src/train_model.py, the
    same lines in src/models.py): LabelBinarizer, the stratified
    train_test_split, and the expansion of the single indicator column into
    the two columns the network's two outputs are trained against. */
module Encoding {
  import opened Wrappers
  import opened Text
  import opened Imaging

  datatype TrainError =
    | NoSamples            // LabelBinarizer.fit: 'y has 0 samples'
    | MoreThanTwoClasses   // LabelBinarizer would return a one-hot matrix, not an indicator column
    | LengthMismatch       // train_test_split: images and labels differ in length
    | EmptyTrainSet        // train_test_split: ceil(0.2 n) leaves no training row (n <= 1)
    | SingletonClass       // the stratified split: some class has a single member
    | TooFewTrainRows      // the stratified split: fewer training rows than classes
    | TooFewTestRows       // the stratified split: fewer test rows than classes

  function Distinct<T>(xs: seq<T>): set<T> { set x | x in xs }

  /** The first label different from a, if there is one. */
  function FirstOther(labels: seq<string>, a: string): (r: Option<string>)
    ensures r.Some? ==> r.value in labels && r.value != a
    ensures r.None? <==> forall i :: 0 <= i < |labels| ==> labels[i] == a
  {
    if labels == [] then None
    else if labels[0] != a then Some(labels[0])
    else FirstOther(labels[1..], a)
  }

  /** LabelBinarizer().fit_transform(labels) as one indicator column: no
      labels at all is an error; with a single class every row is 0, with two classes the class that sorts
      last (Python's str order) is 1. */
  function Binarize(labels: seq<string>): (r: Result<seq<int>, TrainError>)
    ensures r.Ok? <==> |labels| > 0 && |Distinct(labels)| <= 2
    ensures labels == [] ==> r == Err(NoSamples)
    ensures r.Ok? ==> |r.value| == |labels|
    ensures r.Ok? ==> forall i :: 0 <= i < |r.value| ==> r.value[i] == 0 || r.value[i] == 1
  {
    if labels == [] then Err(NoSamples)
    else if |Distinct(labels)| > 2 then Err(MoreThanTwoClasses)
    else match FirstOther(labels, labels[0])
      case None => Ok(seq(|labels|, i => 0))
      case Some(other) =>
        var positive := if LexLess(labels[0], other) then other else labels[0];
        Ok(seq(|labels|, i requires 0 <= i < |labels| => if labels[i] == positive then 1 else 0))
  }

  /** Two classes a < b: rows labelled b become 1, rows labelled a become 0. */
  lemma BinarizeTwoClasses(labels: seq<string>, a: string, b: string)
    requires LexLess(a, b) && Distinct(labels) == {a, b}
    ensures Binarize(labels).Ok?
    ensures forall i :: 0 <= i < |labels| ==>
      Binarize(labels).value[i] == (if labels[i] == b then 1 else 0) &&
      (labels[i] == a || labels[i] == b)
  {
    LexLessTotal(a, b);
    var first := labels[0];
    assert first in Distinct(labels);
    var c := if first == a then b else a;
    assert c in Distinct(labels);
    var other := FirstOther(labels, first);
    assert other.Some?;
    assert other.value in Distinct(labels);
    assert other.value == c;
    var positive := if LexLess(first, c) then c else first;
    assert positive == b;
    assert |Distinct(labels)| == 2;
    forall i | 0 <= i < |labels| ensures labels[i] == a || labels[i] == b {
      assert labels[i] in Distinct(labels);
    }
  }

  /** A single class: every row becomes 0. */
  lemma BinarizeOneClass(labels: seq<string>, a: string)
    requires Distinct(labels) == {a}
    ensures Binarize(labels).Ok?
    ensures forall i :: 0 <= i < |labels| ==> Binarize(labels).value[i] == 0
  {
    forall i | 0 <= i < |labels| ensures labels[i] == labels[0] {
      assert labels[i] in Distinct(labels) && labels[0] in Distinct(labels);
    }
    assert FirstOther(labels, labels[0]).None?;
  }

  /** np.hstack((y, 1 - y)) on an (n, 1) column. */
  function Expand(y: seq<int>): (rows: seq<seq<int>>)
    ensures |rows| == |y|
    ensures forall i :: 0 <= i < |y| ==>
      |rows[i]| == 2 && rows[i][0] == y[i] && rows[i][0] + rows[i][1] == 1
  {
    seq(|y|, i requires 0 <= i < |y| => [y[i], 1 - y[i]])
  }

  // ---------------------------------------------------------------------
  // train_test_split(images, labels, test_size=0.20, stratify=labels)

  /** ceil(0.20 * n), the number of test rows (the float product agrees with
      this for every n a dataset can have here). */
  function TestSize(n: nat): nat { (n + 4) / 5 }

  /** The rows the stratified shuffle picks, in the order it lists them.  The
      shuffle itself belongs to the library; the model only takes its choice. */
  datatype Draw = Draw(train: seq<nat>, test: seq<nat>)

  function Count<T(==)>(xs: seq<T>, x: T): nat
  {
    if xs == [] then 0 else (if xs[0] == x then 1 else 0) + Count(xs[1..], x)
  }

  /** Each of the n rows lands in exactly one of the two sides, and the test
      side holds ceil(0.20 * n) of them. */
  predicate IsPartition(n: nat, d: Draw)
  {
    |d.test| == TestSize(n) && |d.train| == n - TestSize(n) &&
    (forall k :: 0 <= k < |d.train| ==> d.train[k] < n) &&
    (forall k :: 0 <= k < |d.test| ==> d.test[k] < n) &&
    forall r: nat :: r < n ==> Count(d.train, r) + Count(d.test, r) == 1
  }

  /** The validation train_test_split and the stratified splitter do before
      they draw: None when the split goes ahead. */
  function SplitCheck(nImages: nat, y: seq<int>): (r: Option<TrainError>)
    ensures nImages != |y| ==> r == Some(LengthMismatch)
    ensures r.None? <==>
      nImages == |y| && 0 < |y| - TestSize(|y|) &&
      (forall i :: 0 <= i < |y| ==> Count(y, y[i]) >= 2) &&
      |Distinct(y)| <= TestSize(|y|) && |Distinct(y)| <= |y| - TestSize(|y|)
  {
    var n := |y|;
    var classes := Distinct(y);
    if nImages != n then Some(LengthMismatch)
    else if n - TestSize(n) == 0 then Some(EmptyTrainSet)
    else if exists c :: c in classes && Count(y, c) < 2 then Some(SingletonClass)
    else if n - TestSize(n) < |classes| then Some(TooFewTrainRows)
    else if TestSize(n) < |classes| then Some(TooFewTestRows)
    else None
  }

  /** xs[idx], numpy fancy indexing. */
  function Gather<T>(xs: seq<T>, idx: seq<nat>): (r: seq<T>)
    requires forall k :: 0 <= k < |idx| ==> idx[k] < |xs|
    ensures |r| == |idx| && forall k :: 0 <= k < |idx| ==> r[k] == xs[idx[k]]
  {
    seq(|idx|, k requires 0 <= k < |idx| => xs[idx[k]])
  }

  /** What train_CNN holds after line 89. */
  datatype Prepared = Prepared(
    xTrain: seq<Image>, xTest: seq<Image>,
    yTrain: seq<seq<int>>, yTest: seq<seq<int>>)

  /** Lines 78-89 of train_CNN: binarize, split with the library's draw,
      expand both sides to two columns. */
  function Prepare(images: seq<Image>, labels: seq<string>, draw: Draw): (r: Result<Prepared, TrainError>)
    requires IsPartition(|labels|, draw)
    ensures labels == [] ==> r == Err(NoSamples)
    ensures labels != [] && |Distinct(labels)| <= 2 && |images| != |labels| ==> r == Err(LengthMismatch)
    ensures r.Ok? ==>
      |labels| > 0 && |Distinct(labels)| <= 2 && |images| == |labels| &&
      |r.value.xTest| == |r.value.yTest| == TestSize(|labels|) &&
      |r.value.xTrain| == |r.value.yTrain| == |labels| - TestSize(|labels|)
  {
    match Binarize(labels)
    case Err(e) => Err(e)
    case Ok(y) =>
      match SplitCheck(|images|, y)
      case Some(e) => Err(e)
      case None =>
        Ok(Prepared(Gather(images, draw.train), Gather(images, draw.test),
                    Expand(Gather(y, draw.train)), Expand(Gather(y, draw.test))))
  }

  // ---------------------------------------------------------------------
  // The split keeps every image beside its label

  lemma {:induction false} CountConcat<T>(a: seq<T>, b: seq<T>, x: T)
    ensures Count(a + b, x) == Count(a, x) + Count(b, x)
    decreases |a|
  {
    if a == [] {
      assert a + b == b;
    } else {
      CountConcat(a[1..], b, x);
      assert (a + b)[1..] == a[1..] + b;
    }
  }

  /** An element that occurs in a sequence can be cut out of it. */
  lemma {:induction false} CountPositive<T>(a: seq<T>, x: T) returns (i: nat)
    requires Count(a, x) > 0
    ensures i < |a| && a[i] == x
    decreases |a|
  {
    if a[0] == x {
      i := 0;
    } else {
      var j := CountPositive(a[1..], x);
      i := j + 1;
    }
  }

  /** Reading a sequence through an index list that names every position
      exactly once yields the same elements: a permutation. */
  lemma {:induction false} GatherPermutation<T>(s: seq<T>, p: seq<nat>)
    requires forall k :: 0 <= k < |p| ==> p[k] < |s|
    requires forall r: nat :: r < |s| ==> Count(p, r) == 1
    requires |p| == |s|
    ensures multiset(Gather(s, p)) == multiset(s)
    decreases |s|
  {
    if s != [] {
      var m: nat := |s| - 1;
      var i := CountPositive(p, m);
      var q := p[..i] + p[i + 1..];
      CutOut(p, i, m, q);
      GatherPermutation(s[..m], q);
      GatherCut(s, p, i);
      assert Gather(s, q) == Gather(s[..m], q);
      assert s == s[..m] + [s[m]];
    }
  }

  /** Cutting the one occurrence of the largest index m out of an index list
      that names each of 0..m once leaves a list naming each of 0..m-1 once. */
  lemma CutOut(p: seq<nat>, i: nat, m: nat, q: seq<nat>)
    requires i < |p| && p[i] == m && q == p[..i] + p[i + 1..]
    requires forall k :: 0 <= k < |p| ==> p[k] <= m
    requires forall r: nat :: r <= m ==> Count(p, r) == 1
    ensures forall r: nat :: r < m ==> Count(q, r) == 1
    ensures forall k :: 0 <= k < |q| ==> q[k] < m
  {
    assert p == p[..i] + [m] + p[i + 1..];
    forall r: nat | r <= m ensures Count(q, r) == Count(p, r) - (if r == m then 1 else 0) {
      CountConcat(p[..i], p[i + 1..], r);
      CountConcat(p[..i] + [m], p[i + 1..], r);
      CountConcat(p[..i], [m], r);
      assert [m][1..] == [];
    }
    forall r: nat | r < m ensures Count(q, r) == 1 {
      assert Count(p, r) == 1;
    }
    assert Count(p, m) == 1;
    CountZeroAbsent(q, m);
  }

  lemma GatherCut<T>(s: seq<T>, p: seq<nat>, i: nat)
    requires i < |p| && forall k :: 0 <= k < |p| ==> p[k] < |s|
    ensures multiset(Gather(s, p)) == multiset(Gather(s, p[..i] + p[i + 1..])) + multiset{s[p[i]]}
  {
    assert p == p[..i] + [p[i]] + p[i + 1..];
    assert Gather(s, p) == Gather(s, p[..i]) + [s[p[i]]] + Gather(s, p[i + 1..]);
    assert Gather(s, p[..i] + p[i + 1..]) == Gather(s, p[..i]) + Gather(s, p[i + 1..]);
  }

  lemma {:induction false} CountZeroAbsent<T>(a: seq<T>, x: T)
    requires Count(a, x) == 0
    ensures forall k :: 0 <= k < |a| ==> a[k] != x
    decreases |a|
  {
    if a != [] {
      CountZeroAbsent(a[1..], x);
    }
  }

  /** Images beside their two-column targets. */
  function Pairs(images: seq<Image>, rows: seq<seq<int>>): (ps: seq<(Image, seq<int>)>)
    requires |images| == |rows|
    ensures |ps| == |images|
  {
    seq(|images|, i requires 0 <= i < |images| => (images[i], rows[i]))
  }

  /** What lines 78-89 produce when they succeed: the test side holds
      ceil(0.20 n) rows, and each side takes its images and their expanded
      labels at the same drawn indices. */
  lemma PrepareRows(images: seq<Image>, labels: seq<string>, draw: Draw)
    requires IsPartition(|labels|, draw)
    ensures Prepare(images, labels, draw).Ok? ==>
      var p := Prepare(images, labels, draw).value;
      var y := Binarize(labels).value;
      var n := |labels|;
      |images| == n && |p.xTest| == |p.yTest| == TestSize(n) &&
      |p.xTrain| == |p.yTrain| == n - TestSize(n) &&
      (forall k :: 0 <= k < |p.xTrain| ==>
         p.xTrain[k] == images[draw.train[k]] && p.yTrain[k] == [y[draw.train[k]], 1 - y[draw.train[k]]]) &&
      (forall k :: 0 <= k < |p.xTest| ==>
         p.xTest[k] == images[draw.test[k]] && p.yTest[k] == [y[draw.test[k]], 1 - y[draw.test[k]]])
  {
  }

  /** Together the two sides hold every (image, target) pair of the input
      exactly once: one permutation is applied to images and labels alike. */
  lemma PrepareIsPermutation(images: seq<Image>, labels: seq<string>, draw: Draw)
    requires IsPartition(|labels|, draw)
    ensures Prepare(images, labels, draw).Ok? ==>
      var p := Prepare(images, labels, draw).value;
      var y := Binarize(labels).value;
      multiset(Pairs(p.xTrain, p.yTrain) + Pairs(p.xTest, p.yTest)) == multiset(Pairs(images, Expand(y)))
  {
    if Prepare(images, labels, draw).Ok? {
      var p := Prepare(images, labels, draw).value;
      var y := Binarize(labels).value;
      var all := Pairs(images, Expand(y));
      var both := draw.train + draw.test;
      forall r: nat | r < |all| ensures Count(both, r) == 1 {
        CountConcat(draw.train, draw.test, r);
      }
      GatherPermutation(all, both);
      PairsGather(images, y, draw.train);
      PairsGather(images, y, draw.test);
      GatherConcat(all, draw.train, draw.test);
    }
  }

  /** Gathering images and expanded labels separately and pairing them up is
      gathering the pairs. */
  lemma PairsGather(images: seq<Image>, y: seq<int>, idx: seq<nat>)
    requires |images| == |y| && forall k :: 0 <= k < |idx| ==> idx[k] < |y|
    ensures Pairs(Gather(images, idx), Expand(Gather(y, idx))) == Gather(Pairs(images, Expand(y)), idx)
  {
  }

  lemma GatherConcat<T>(xs: seq<T>, a: seq<nat>, b: seq<nat>)
    requires forall k :: 0 <= k < |a| ==> a[k] < |xs|
    requires forall k :: 0 <= k < |b| ==> b[k] < |xs|
    ensures Gather(xs, a + b) == Gather(xs, a) + Gather(xs, b)
  {
  }
}
