/** The order std::map and std::set keep string keys in. */
module Order {

  predicate LexLe(a: string, b: string) {
    a == "" || (b != "" && (a[0] < b[0] || (a[0] == b[0] && LexLe(a[1..], b[1..]))))
  }

  lemma {:induction false} LexTotal(a: string, b: string)
    ensures LexLe(a, b) || LexLe(b, a)
  {
    if a != "" && b != "" && a[0] == b[0] { LexTotal(a[1..], b[1..]); }
  }

  lemma {:induction false} LexAntisymmetric(a: string, b: string)
    requires LexLe(a, b) && LexLe(b, a)
    ensures a == b
  {
    if a != "" {
      LexAntisymmetric(a[1..], b[1..]);
      assert a == [a[0]] + a[1..] && b == [b[0]] + b[1..];
    }
  }

  lemma {:induction false} LexTransitive(a: string, b: string, c: string)
    requires LexLe(a, b) && LexLe(b, c)
    ensures LexLe(a, c)
  {
    if a != "" && b != "" && c != "" && a[0] == b[0] == c[0] { LexTransitive(a[1..], b[1..], c[1..]); }
  }

  predicate IsFirst(s: set<string>, m: string) {
    m in s && forall x | x in s :: LexLe(m, x)
  }

  lemma {:induction false} FirstExists(s: set<string>) returns (m: string)
    requires s != {}
    ensures IsFirst(s, m)
  {
    var one :| one in s;
    var rest := s - {one};
    m := one;
    LexTotal(one, one);
    assert forall x | x in s :: x == one || x in rest;
    if rest != {} {
      var n := FirstExists(rest);
      LexTotal(one, n);
      if LexLe(one, n) {
        forall x | x in rest ensures LexLe(one, x) { LexTransitive(one, n, x); }
      } else {
        m := n;
      }
    }
  }

  lemma FirstIsUnique(s: set<string>, m: string, n: string)
    requires IsFirst(s, m) && IsFirst(s, n)
    ensures m == n
  {
    LexAntisymmetric(m, n);
  }

  /** The elements in the order of a std::map or std::set traversal. */
  ghost function Sorted(s: set<string>): (r: seq<string>)
    ensures forall x :: x in r <==> x in s
    ensures forall i | 0 <= i < |r| :: r[i] in s
    ensures forall i, j | 0 <= i < j < |r| :: r[i] != r[j] && LexLe(r[i], r[j])
  {
    if s == {} then []
    else
      var m := FirstExistsWitness(s);
      [m] + Sorted(s - {m})
  }

  ghost function FirstExistsWitness(s: set<string>): (m: string)
    requires s != {}
    ensures IsFirst(s, m)
  {
    assert exists m :: IsFirst(s, m) by { var m := FirstExists(s); }
    var m :| IsFirst(s, m);
    m
  }
}
