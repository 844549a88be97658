/** The presentation fields derived from a team's temperature (its
    positive-sentiment percentage): a one-line comment and a fill colour. */
module Temperature {
  import opened Wrappers
  import opened PyText

  /** `int(t)` with the routes' fallback: an input `int()` rejects (`None`
      here) counts as 0. */
  function Coerce(t: Option<int>): int {
    t.GetOr(0)
  }

  /** The ten comments, from coldest to hottest. */
  const LABELS: seq<string> := [
    "❄ 팬심 얼음장처럼 싸늘",
    "🧊 냉기 가득, 차가운 시선",
    "😨 불안감 감돌아, 걱정 섞인 반응",
    "😟 아쉬움과 우려, 불만 서려",
    "🌫 반신반의, 엇갈린 반응",
    "🌥 살짝 긍정 흐름이 보이는 중",
    "🌤 응원 분위기 점점 살아나",
    "😊 팬심 점화! 긍정 열기 감돌아",
    "🔥 뜨거운 응원! 팬심 활활 타오름",
    "❤️ 팬심 폭발! 열광적 지지 쇄도"
  ]

  /** Which of the ten buckets a temperature falls in: bucket 0 is up to 10,
      bucket k (1 <= k <= 8) is 10k+1 through 10k+10, bucket 9 is above 90. */
  function Bucket(t: int): (k: nat)
    ensures k < 10
    ensures k == 0 <==> t <= 10
    ensures k == 9 <==> t > 90
    ensures 0 < k < 9 ==> 10 * k < t <= 10 * k + 10
  {
    if t <= 10 then 0 else if t > 90 then 9 else (t - 1) / 10
  }

  /** `temperature_comment`: a chain of inclusive upper bounds 10, 20, ...,
      90, and the last comment for anything hotter. */
  function TemperatureComment(t: Option<int>): (r: string)
    ensures r == LABELS[Bucket(Coerce(t))]
  {
    var v := Coerce(t);
    if v <= 10 then "❄ 팬심 얼음장처럼 싸늘"
    else if v <= 20 then "🧊 냉기 가득, 차가운 시선"
    else if v <= 30 then "😨 불안감 감돌아, 걱정 섞인 반응"
    else if v <= 40 then "😟 아쉬움과 우려, 불만 서려"
    else if v <= 50 then "🌫 반신반의, 엇갈린 반응"
    else if v <= 60 then "🌥 살짝 긍정 흐름이 보이는 중"
    else if v <= 70 then "🌤 응원 분위기 점점 살아나"
    else if v <= 80 then "😊 팬심 점화! 긍정 열기 감돌아"
    else if v <= 90 then "🔥 뜨거운 응원! 팬심 활활 타오름"
    else "❤️ 팬심 폭발! 열광적 지지 쇄도"
  }

  /** The ten comments are pairwise different, so the bucket can be read
      back from the comment. */
  lemma LabelsDistinct()
    ensures |LABELS| == 10
    ensures forall i, j | 0 <= i < j < 10 :: LABELS[i] != LABELS[j]
  {
  }

  /** A hotter temperature never gets a colder comment. */
  lemma {:induction false} BucketMonotone(t1: int, t2: int)
    requires t1 <= t2
    ensures Bucket(t1) <= Bucket(t2)
  {
    if 10 < t1 <= 90 && 10 < t2 <= 90 {
      assert (t1 - 1) / 10 <= (t2 - 1) / 10 by {
        var q1, q2 := (t1 - 1) / 10, (t2 - 1) / 10;
        assert 10 * q1 <= t1 - 1 < 10 * q1 + 10;
        assert 10 * q2 <= t2 - 1 < 10 * q2 + 10;
      }
    }
  }

  /** Each upper bound is inclusive: 10 and 11 get different comments, and so
      do 90 and 91. An input `int()` rejects reads as 0. */
  lemma CommentBoundaries()
    ensures TemperatureComment(Some(10)) == LABELS[0] != TemperatureComment(Some(11)) == LABELS[1]
    ensures TemperatureComment(Some(90)) == LABELS[8] != TemperatureComment(Some(91)) == LABELS[9]
    ensures TemperatureComment(None) == TemperatureComment(Some(0))
  {
    LabelsDistinct();
  }

  /** An RGB triple. */
  datatype Rgb = Rgb(r: int, g: int, b: int)

  /** Python's `int(x / d)` for exact `x / d`: the quotient rounded toward
      zero, so a negative fraction rounds up. */
  function TruncDiv(x: int, d: int): (q: int)
    requires d > 0
    ensures x >= 0 ==> q * d <= x < q * d + d
    ensures x < 0 ==> q * d - d < x <= q * d
  {
    if x >= 0 then x / d else -((-x) / d)
  }

  /** First segment, up to 20: black-blue rising to pure blue,
      `b = int(139 + 116 * t / 20)`. */
  function BlueRamp(t: int): (c: Rgb)
    ensures c.r == 0 && c.g == 0
    ensures 0 <= t <= 20 ==> 139 <= c.b <= 255
  {
    Rgb(0, 0, TruncDiv(139 * 20 + 116 * t, 20))
  }

  /** Second segment, 20 to 50: blue fading into red with
      `ratio = (t - 20) / 30`, `r = int(255 * ratio)`, `b = int(255 * (1 - ratio))`. */
  function BlueToRed(t: int): (c: Rgb)
    ensures c.g == 0
    ensures 20 <= t <= 50 ==> 0 <= c.r <= 255 && 0 <= c.b <= 255 && 254 <= c.r + c.b <= 255
  {
    Rgb(TruncDiv(255 * (t - 20), 30), 0, TruncDiv(255 * (50 - t), 30))
  }

  /** Third segment, above 50: solid red. */
  const RED := Rgb(255, 0, 0)

  /** The colour `temperature_color` picks for a (coerced) temperature. */
  function ColorOf(t: Option<int>): (c: Rgb)
    ensures c.g == 0
    ensures Coerce(t) <= 20 ==> c.r == 0
    ensures Coerce(t) > 50 ==> c == RED
  {
    var v := Coerce(t);
    if v <= 20 then BlueRamp(v)
    else if v <= 50 then BlueToRed(v)
    else RED
  }

  /** `temperature_color`: the colour as the CSS text `rgb(r,g,b)`. */
  function TemperatureColor(t: Option<int>): (s: string)
    ensures |s| >= 10 && s[..4] == "rgb(" && s[|s| - 1] == ')'
  {
    var c := ColorOf(t);
    "rgb(" + ShowInt(c.r) + "," + ShowInt(c.g) + "," + ShowInt(c.b) + ")"
  }

  /** The fill colour text spells out the three channels of `ColorOf`: each
      of the three comma-free numbers between `rgb(` and `)` reads back, with
      `int()`, as its channel. */
  lemma TemperatureColorChannels(t: Option<int>)
    ensures exists r, g, b ::
      && TemperatureColor(t) == "rgb(" + r + "," + g + "," + b + ")"
      && ',' !in r && ',' !in g && ',' !in b
      && ParseInt(r) == Some(ColorOf(t).r) && ParseInt(g) == Some(ColorOf(t).g) && ParseInt(b) == Some(ColorOf(t).b)
  {
    var c := ColorOf(t);
    ChannelText(c.r);
    ChannelText(c.g);
    ChannelText(c.b);
    assert TemperatureColor(t) == "rgb(" + ShowInt(c.r) + "," + ShowInt(c.g) + "," + ShowInt(c.b) + ")";
  }

  /** One channel's numeral has no comma and reads back as the channel. */
  lemma ChannelText(v: int)
    ensures ',' !in ShowInt(v) && ParseInt(ShowInt(v)) == Some(v)
  {
    ShowIntChars(v);
    ParseShowInt(v);
  }

  /** The segments meet: at 20 the ramp and the fade both give pure blue, at
      50 the fade and solid red agree, so the colour has no jump. */
  lemma SegmentsMeet()
    ensures BlueRamp(20) == BlueToRed(20) == Rgb(0, 0, 255)
    ensures BlueToRed(50) == RED
    ensures BlueRamp(0) == Rgb(0, 0, 139)
  {
  }

  /** From 0 up, every channel stays within 0..255; below 20 the blue
      channel climbs from 139, between 20 and 50 red and blue together make
      254 or 255 (two truncations of parts summing to 255). */
  lemma {:induction false} ChannelsInRange(t: int)
    requires t >= 0
    ensures 0 <= ColorOf(Some(t)).r <= 255 && 0 <= ColorOf(Some(t)).b <= 255
    ensures t <= 20 ==> 139 <= ColorOf(Some(t)).b
    ensures 20 < t <= 50 ==> 254 <= ColorOf(Some(t)).r + ColorOf(Some(t)).b <= 255
  {
    if t <= 20 {
      var x := 139 * 20 + 116 * t;
      assert 2780 <= x <= 5100;
    } else if t <= 50 {
      var x, y := 255 * (t - 20), 255 * (50 - t);
      assert x + y == 7650 && x >= 0 && y >= 0;
    }
  }

  /** Warmer never means bluer past 20 or less red: red never falls and blue
      never rises from 20 on, and blue never falls up to 20. */
  lemma {:induction false} ColorMonotone(t1: int, t2: int)
    requires 0 <= t1 <= t2
    ensures ColorOf(Some(t1)).r <= ColorOf(Some(t2)).r
    ensures t2 <= 20 ==> ColorOf(Some(t1)).b <= ColorOf(Some(t2)).b
    ensures 20 <= t1 ==> ColorOf(Some(t1)).b >= ColorOf(Some(t2)).b
  {
    ChannelsInRange(t1);
    ChannelsInRange(t2);
    if t2 <= 20 {
      DivMonotone(139 * 20 + 116 * t1, 139 * 20 + 116 * t2, 20);
    } else if t1 > 20 && t2 <= 50 {
      DivMonotone(255 * (t1 - 20), 255 * (t2 - 20), 30);
      DivMonotone(255 * (50 - t2), 255 * (50 - t1), 30);
    } else if t1 == 20 && t2 <= 50 {
      DivMonotone(255 * (50 - t2), 255 * (50 - t1), 30);
    }
  }

  lemma DivMonotone(x: nat, y: nat, d: nat)
    requires x <= y && d > 0
    ensures x / d <= y / d
  {
    var qx, qy := x / d, y / d;
    assert x == qx * d + x % d && y == qy * d + y % d;
    if qx > qy {
      MulMonotone(qy + 1, qx, d);
    }
  }

  lemma MulMonotone(a: nat, b: nat, d: nat)
    requires a <= b
    ensures a * d <= b * d
  {
    assert b * d == a * d + (b - a) * d;
  }
}
