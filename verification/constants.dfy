/**
 * The blood-pressure classifier and the two colour maps shown beside it.
 */
module Constants {
  import opened BPTypes

  /** The ordinal rank of a category: 0 for Normal up to 4 for Crisis. */
  function Severity(c: Category): (n: nat)
    ensures n <= 4
    ensures c == Normal <==> n == 0
    ensures c == Crisis <==> n == 4
  {
    match c
    case Normal => 0
    case Elevated => 1
    case Stage1 => 2
    case Stage2 => 3
    case Crisis => 4
  }

  /** The more severe of two categories. */
  function MoreSevere(a: Category, b: Category): (c: Category)
    ensures c == a || c == b
    ensures Severity(c) >= Severity(a) && Severity(c) >= Severity(b)
  {
    if Severity(a) >= Severity(b) then a else b
  }

  /** The category the systolic value alone would give. */
  function SystolicBand(systolic: int): Category
  {
    if systolic > 180 then Crisis
    else if systolic >= 140 then Stage2
    else if systolic >= 130 then Stage1
    else if systolic >= 120 then Elevated
    else Normal
  }

  /** The category the diastolic value alone would give; it has no Elevated band. */
  function DiastolicBand(diastolic: int): Category
  {
    if diastolic > 120 then Crisis
    else if diastolic >= 90 then Stage2
    else if diastolic >= 80 then Stage1
    else Normal
  }

  /**
   * The classifier: a priority cascade, most severe rule first. Each
   * category is characterised in closed form, and the cascade equals the
   * more severe of the two single-measurement bands.
   */
  function GetBPCategory(systolic: int, diastolic: int): (c: Category)
    ensures c == Crisis <==> systolic > 180 || diastolic > 120
    ensures c == Stage2 <==>
      systolic <= 180 && diastolic <= 120 && (systolic >= 140 || diastolic >= 90)
    ensures c == Stage1 <==>
      systolic < 140 && diastolic < 90 && (systolic >= 130 || diastolic >= 80)
    ensures c == Elevated <==> 120 <= systolic <= 129 && diastolic < 80
    ensures c == Normal <==> systolic < 120 && diastolic < 80
    ensures c == MoreSevere(SystolicBand(systolic), DiastolicBand(diastolic))
  {
    if systolic > 180 || diastolic > 120 then Crisis
    else if systolic >= 140 || diastolic >= 90 then Stage2
    else if (systolic >= 130 && systolic <= 139) || (diastolic >= 80 && diastolic <= 89) then Stage1
    else if systolic >= 120 && systolic <= 129 && diastolic < 80 then Elevated
    else Normal
  }

  /** Raising either measurement never lowers the category. */
  lemma {:induction false} CategoryMonotone(s: int, d: int, s': int, d': int)
    requires s <= s' && d <= d'
    ensures Severity(GetBPCategory(s, d)) <= Severity(GetBPCategory(s', d'))
  {
    assert Severity(SystolicBand(s)) <= Severity(SystolicBand(s'));
    assert Severity(DiastolicBand(d)) <= Severity(DiastolicBand(d'));
  }

  /** The boundary cases of the cascade; the inequalities of rule one are strict. */
  lemma BoundaryCases()
    ensures GetBPCategory(180, 120) == Stage2
    ensures GetBPCategory(181, 0) == Crisis && GetBPCategory(0, 121) == Crisis
    ensures GetBPCategory(185, 70) == Crisis
    ensures GetBPCategory(179, 80) == Stage2 && GetBPCategory(140, 79) == Stage2
    ensures GetBPCategory(139, 79) == Stage1 && GetBPCategory(119, 80) == Stage1
    ensures GetBPCategory(129, 79) == Elevated && GetBPCategory(120, 79) == Elevated
    ensures GetBPCategory(119, 79) == Normal && GetBPCategory(-10, 0) == Normal
  {
  }

  /** The badge classes for a category. */
  function CategoryColor(c: Category): string
  {
    match c
    case Normal => "text-emerald-600 bg-emerald-50 border-emerald-200"
    case Elevated => "text-amber-600 bg-amber-50 border-amber-200"
    case Stage1 => "text-orange-600 bg-orange-50 border-orange-200"
    case Stage2 => "text-red-600 bg-red-50 border-red-200"
    case Crisis => "text-purple-700 bg-purple-50 border-purple-300"
  }

  /** The status-dot classes for a category. */
  function StatusDotColor(c: Category): string
  {
    match c
    case Normal => "bg-emerald-500"
    case Elevated => "bg-amber-500"
    case Stage1 => "bg-orange-500"
    case Stage2 => "bg-red-500"
    case Crisis => "bg-purple-600 animate-pulse"
  }

  /** The badge classes tell the five categories apart. */
  lemma BadgeColorsDistinct(a: Category, b: Category)
    ensures CategoryColor(a) == CategoryColor(b) ==> a == b
  {
  }

  /** The status-dot classes tell the five categories apart. */
  lemma DotColorsDistinct(a: Category, b: Category)
    ensures StatusDotColor(a) == StatusDotColor(b) ==> a == b
  {
  }

  /** No two categories share a label. */
  lemma LabelsDistinct(a: Category, b: Category)
    ensures Label(a) == Label(b) ==> a == b
  {
  }
}
