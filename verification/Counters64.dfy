/** Unsigned 64-bit counters, compared up to whole wraps. */
module Counters64 {
  import opened Bytes

  function Turns(k: int): int {
    k * TWO_64
  }

  /** Equal as 64-bit counters: a whole number of wraps apart. */
  ghost predicate Same64(x: nat, y: nat) {
    exists k :: x == y + Turns(k)
  }

  lemma Same64Iff(x: nat, y: nat)
    ensures Same64(x, y) <==> x % TWO_64 == y % TWO_64
  {
    if x % TWO_64 == y % TWO_64 {
      assert x == y + Turns(x / TWO_64 - y / TWO_64);
    }
  }

  lemma SameSym(x: nat, y: nat)
    requires Same64(x, y)
    ensures Same64(y, x)
  {
    var k :| x == y + Turns(k);
    assert y == x + Turns(-k);
  }

  lemma SameSelf(x: nat)
    ensures Same64(x, x)
  {
    assert x == x + Turns(0);
  }

  lemma Shift(before: nat, after: nat, was: nat, becomes: nat, part: nat)
    requires after + was == before + becomes && Same64(becomes, was + part)
    ensures Same64(after, before + part)
  {
    var k :| becomes == was + part + Turns(k);
    assert after == before + part + Turns(k);
  }

  /** Two shifts in a row. */
  lemma ShiftTwice(x: nat, y: nat, z: nat, part: nat)
    requires Same64(y, x) && Same64(z, y + part)
    ensures Same64(z, x + part)
  {
    var j :| y == x + Turns(j);
    var k :| z == y + part + Turns(k);
    assert z == x + part + Turns(j + k);
  }

  lemma AddBoth(x: nat, y: nat, x': nat, part: nat)
    requires Same64(x', x + part)
    ensures Same64(x' + y, x + y + part)
  {
    var k :| x' == x + part + Turns(k);
    assert x' + y == x + y + part + Turns(k);
  }

  lemma BothMove(x: nat, y: nat, x': nat, y': nat, part: nat)
    requires Same64(x, y) && Same64(x', x + part) && Same64(y', y + part)
    ensures Same64(x', y')
  {
    var i :| x == y + Turns(i);
    var j :| x' == x + part + Turns(j);
    var k :| y' == y + part + Turns(k);
    assert x' == y' + Turns(i + j - k);
  }

  lemma OneMoves(x: nat, y: nat, x': nat, y': nat)
    requires Same64(x, y) && Same64(x', x + 1) && Same64(y', y)
    ensures !Same64(x', y') && !Same64(y', x')
  {
    Same64Iff(x, y);
    Same64Iff(x', x + 1);
    Same64Iff(y', y);
    Same64Iff(x', y');
    Same64Iff(y', x');
  }
}
