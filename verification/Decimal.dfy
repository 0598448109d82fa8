/** Printing whole numbers in base ten, with zero padding, and the text order of what is printed. */
module Decimal {
  function Digit(d: nat): char
    requires d < 10
  {
    ('0' as int + d) as char
  }

  /** n in base ten, filled with leading zeros up to `width` characters. */
  function Pad(n: nat, width: nat): string
    decreases n + width
  {
    if n < 10 && width <= 1 then [Digit(n)]
    else Pad(n / 10, if width == 0 then 0 else width - 1) + [Digit(n % 10)]
  }

  predicate AllDigits(s: string) {
    forall i :: 0 <= i < |s| ==> '0' <= s[i] <= '9'
  }

  /** The number a text of digits spells. */
  function Value(s: string): nat
    requires AllDigits(s)
  {
    if s == "" then 0 else 10 * Value(s[..|s| - 1]) + (s[|s| - 1] as int - '0' as int)
  }

  lemma {:induction false} PadSpells(n: nat, width: nat)
    ensures AllDigits(Pad(n, width)) && Value(Pad(n, width)) == n
    ensures |Pad(n, width)| >= width && |Pad(n, width)| >= 1
    decreases n + width
  {
    if !(n < 10 && width <= 1) {
      var w := if width == 0 then 0 else width - 1;
      PadSpells(n / 10, w);
      var front := Pad(n / 10, w);
      assert (front + [Digit(n % 10)])[..|front|] == front;
    } else {
      assert [Digit(n)][..0] == "";
    }
  }

  lemma PadInjective(a: nat, b: nat, width: nat)
    requires Pad(a, width) == Pad(b, width)
    ensures a == b
  {
    PadSpells(a, width);
    PadSpells(b, width);
  }

  lemma {:induction false} PadGrows(a: nat, b: nat, width: nat)
    requires a <= b
    ensures |Pad(a, width)| <= |Pad(b, width)|
    decreases b + width
  {
    if !(b < 10 && width <= 1) {
      var w := if width == 0 then 0 else width - 1;
      if a < 10 && width <= 1 {
        PadSpells(b / 10, w);
      } else {
        PadGrows(a / 10, b / 10, w);
      }
    }
  }

  /** 9, 99, 999, …: the largest number that n digits can spell. */
  function Nines(n: nat): nat {
    if n == 0 then 0 else 10 * Nines(n - 1) + 9
  }

  predicate AllNine(s: string) {
    forall i :: 0 <= i < |s| ==> s[i] == '9'
  }

  lemma {:induction false} ValueBound(s: string)
    requires AllDigits(s)
    ensures Value(s) <= Nines(|s|)
    ensures Value(s) == Nines(|s|) <==> AllNine(s)
  {
    if s != "" {
      var front := s[..|s| - 1];
      ValueBound(front);
      if Value(s) == Nines(|s|) {
        assert s[|s| - 1] == '9';
        forall i | 0 <= i < |s| ensures s[i] == '9' {
          assert i < |front| ==> s[i] == front[i];
        }
      }
    }
  }

  /** Text order, character by character; a prefix comes first. */
  predicate TextLe(a: string, b: string) {
    a == "" || (b != "" && (a[0] < b[0] || (a[0] == b[0] && TextLe(a[1..], b[1..]))))
  }

  lemma {:induction false} TextLeReflexive(a: string)
    ensures TextLe(a, a)
  {
    if a != "" {
      TextLeReflexive(a[1..]);
    }
  }

  lemma {:induction false} TextLeTotal(a: string, b: string)
    ensures TextLe(a, b) || TextLe(b, a)
    ensures TextLe(a, b) && TextLe(b, a) ==> a == b
  {
    if a != "" && b != "" {
      TextLeTotal(a[1..], b[1..]);
      if a[0] == b[0] && a[1..] == b[1..] {
        assert a == [a[0]] + a[1..] && b == [b[0]] + b[1..];
      }
    }
  }

  lemma {:induction false} TextLeTransitive(a: string, b: string, c: string)
    requires TextLe(a, b) && TextLe(b, c)
    ensures TextLe(a, c)
  {
    if a != "" && a[0] == b[0] == c[0] {
      TextLeTransitive(a[1..], b[1..], c[1..]);
    }
  }

  /** Texts that differ at equal length keep their order whatever follows them. */
  lemma {:induction false} TextLeExtends(a: string, b: string, x: string, y: string)
    requires |a| == |b| && a != b && TextLe(a, b)
    ensures TextLe(a + x, b + y)
  {
    assert a == [a[0]] + a[1..] && b == [b[0]] + b[1..];
    assert (a + x)[1..] == a[1..] + x && (b + y)[1..] == b[1..] + y;
    if a[0] == b[0] {
      TextLeExtends(a[1..], b[1..], x, y);
    }
  }

  lemma {:induction false} TextLeSamePrefix(p: string, a: string, b: string)
    ensures TextLe(p + a, p + b) <==> TextLe(a, b)
  {
    if p == "" {
      assert p + a == a && p + b == b;
    } else {
      assert (p + a)[1..] == p[1..] + a && (p + b)[1..] == p[1..] + b;
      TextLeSamePrefix(p[1..], a, b);
    }
  }

  /** Equally long printed numbers stand in numeric order. */
  lemma {:induction false} SameWidthOrder(a: nat, b: nat, width: nat)
    requires a <= b && |Pad(a, width)| == |Pad(b, width)|
    ensures TextLe(Pad(a, width), Pad(b, width))
    decreases b + width
  {
    if a == b {
      TextLeReflexive(Pad(a, width));
    } else if !(b < 10 && width <= 1) {
      var w := if width == 0 then 0 else width - 1;
      PadSpells(b / 10, w);
      var pa, pb := Pad(a / 10, w), Pad(b / 10, w);
      assert |pa| == |pb|;
      SameWidthOrder(a / 10, b / 10, w);
      if a / 10 == b / 10 {
        TextLeSamePrefix(pa, [Digit(a % 10)], [Digit(b % 10)]);
      } else {
        if pa == pb {
          PadInjective(a / 10, b / 10, w);
        }
        TextLeExtends(pa, pb, [Digit(a % 10)], [Digit(b % 10)]);
      }
    }
  }

  /** Nothing of the same or smaller length beats a text that starts with nines throughout. */
  lemma {:induction false} NinesBeat(s: string, u: string)
    requires AllDigits(s) && |s| <= |u|
    requires AllNine(u[..|s|])
    ensures TextLe(s, u)
  {
    if s != "" {
      var head, rest := u[..|s|], u[1..][..|s| - 1];
      assert head[0] == '9';
      forall i | 0 <= i < |rest| ensures rest[i] == '9' {
        assert rest[i] == head[i + 1];
      }
      NinesBeat(s[1..], u[1..]);
    }
  }

  lemma {:induction false} NinesGrow(a: nat, b: nat)
    requires a <= b
    ensures Nines(a) <= Nines(b)
  {
    if a > 0 {
      NinesGrow(a - 1, b - 1);
    }
  }

  lemma {:induction false} PadNines(n: nat, width: nat)
    requires 1 <= n && width <= n
    ensures |Pad(Nines(n), width)| == n && AllNine(Pad(Nines(n), width))
  {
    if n > 1 {
      PadNines(n - 1, if width == 0 then 0 else width - 1);
    }
  }
}
