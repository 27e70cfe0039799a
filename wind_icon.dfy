/** `windIcon(degrees)` and its `cardinals` table (app/services/api.ts:453-456):
    the icon is looked up at `Math.round(((degrees + 180) % 360) / 45)`, so it
    names the direction the wind blows towards. */
module WindIcons {
  import opened JsValues

  /** The table exactly as the source declares it: `wi-wind-south` sits at
      both index 4 and index 5, and there is no south-west entry. */
  const Cardinals: seq<string> := [
    "wi-wind-north", "wi-wind-north-east", "wi-wind-east", "wi-wind-south-east",
    "wi-wind-south", "wi-wind-south", "wi-wind-west", "wi-wind-north-west", "wi-wind-north"
  ]

  /** JavaScript's `%`: the remainder has the sign of the dividend. */
  function JsRem(a: int, n: int): (r: int)
    requires n > 0
    ensures -n < r < n
    ensures a >= 0 ==> r == a % n
    ensures a < 0 ==> r <= 0 && (a - r) % n == 0
  {
    if a >= 0 then a % n
    else
      var q, m := (-a) / n, (-a) % n;
      assert 0 <= m < n;
      assert a + m == (-q) * n by { assert -a == q * n + m; }
      MultipleRem(-q, n);
      -m
  }

  /** A multiple of n leaves no remainder. */
  lemma MultipleRem(k: int, n: int)
    requires n > 0
    ensures (k * n) % n == 0
  {
    var x := k * n;
    var d := k - x / n;
    assert d * n == x % n by {
      assert x == (x / n) * n + x % n;
    }
  }

  /** `Math.round(r / 45)` for an integer r: floor(r / 45 + 1/2). */
  function RoundDiv45(r: int): int {
    (2 * r + 45) / 90
  }

  function CardinalIndex(degrees: int): int {
    RoundDiv45(JsRem(degrees + 180, 360))
  }

  /** The icon, or None where `cardinals[i]` is `undefined` (a negative index). */
  function WindIcon(degrees: int): (icon: Option<string>)
    ensures icon.Some? <==> 0 <= CardinalIndex(degrees) < 9
    ensures icon.Some? ==> icon.value == Cardinals[CardinalIndex(degrees)]
  {
    var i := CardinalIndex(degrees);
    if 0 <= i < |Cardinals| then Some(Cardinals[i]) else None
  }

  /** The integer formula is Math.round: the index is the integer nearest to
      r / 45 (no tie can occur for an integer r). */
  lemma RoundIsNearest(r: int)
    ensures (RoundDiv45(r) as real) - 0.5 <= (r as real) / 45.0 < (RoundDiv45(r) as real) + 0.5
  {
    var i := RoundDiv45(r);
    assert 90 * i <= 2 * r + 45 < 90 * i + 90;
    assert (i as real) * 90.0 <= 2.0 * (r as real) + 45.0 < (i as real) * 90.0 + 90.0;
  }

  /** For every bearing from -180 on, the index lies in 0..8, so a table
      entry always exists. */
  lemma IndexInTable(degrees: int)
    requires degrees >= -180
    ensures 0 <= CardinalIndex(degrees) <= 8
    ensures WindIcon(degrees).Some?
  {
    var r := JsRem(degrees + 180, 360);
    assert 0 <= r < 360;
    assert 0 <= 2 * r + 45 < 810;
  }

  /** Below -180 the JavaScript remainder turns negative and the lookup can
      miss: a bearing of -300 has no icon. */
  lemma NegativeBearingHasNoIcon()
    ensures WindIcon(-300) == None
  {
    assert JsRem(-120, 360) == -120;
    assert CardinalIndex(-300) == -3;
  }

  /** For a non-negative bearing the icon depends only on the bearing modulo 360. */
  lemma DependsOnlyOnBearingMod360(degrees: int)
    requires degrees >= 0
    ensures WindIcon(degrees) == WindIcon(degrees % 360)
  {
    var m := degrees % 360;
    assert degrees == 360 * (degrees / 360) + m;
    assert (degrees + 180) % 360 == (m + 180) % 360;
  }

  /** A wind from the south (180) blows north; a wind from the north (0),
      from the north-east (45) or from 359 degrees all give the south icon. */
  lemma ReferenceBearings()
    ensures WindIcon(180) == Some("wi-wind-north")
    ensures WindIcon(0) == Some("wi-wind-south")
    ensures WindIcon(45) == Some("wi-wind-south")
    ensures WindIcon(359) == Some("wi-wind-south")
    ensures WindIcon(90) == Some("wi-wind-west")
    ensures WindIcon(270) == Some("wi-wind-east")
  {
    assert CardinalIndex(180) == 0;
    assert CardinalIndex(0) == 4;
    assert CardinalIndex(45) == 5;
    assert CardinalIndex(359) == 4;
    assert CardinalIndex(90) == 6;
    assert CardinalIndex(270) == 2;
  }

  /** Because of the duplicated entry, no bearing ever yields a south-west icon. */
  lemma NoSouthWestIcon(degrees: int)
    ensures WindIcon(degrees) != Some("wi-wind-south-west")
  {
    var i := CardinalIndex(degrees);
    if 0 <= i < 9 {
      assert Cardinals[i] != "wi-wind-south-west";
    }
  }
}
