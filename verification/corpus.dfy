/** The fixed training set `_setup_tag_classifier` fits the tag classifier
    on: 63 phrases, nine per topic, and the label list built as seven blocks
    of nine. */
module Corpus {

  type Label = string

  /** The seven topics, in the order their blocks appear */
  const Categories: seq<Label> :=
    ["работа", "учеба", "семья", "здоровье", "досуг", "финансы", "важное"]

  /** Phrases per topic */
  const BlockSize: nat := 9

  const TrainTexts: seq<string> := [
    "работаю над проектом", "встреча с коллегами", "deadline приближается",
    "отчет по работе", "презентация завтра", "обсуждение с командой",
    "совещание в офисе", "задача от руководителя", "проект почти готов",

    "лекция по математике", "экзамен завтра", "домашнее задание",
    "курсовая работа", "семинар в университете", "готовлюсь к зачету",
    "библиотека закрыта", "конспект по физике", "сдача лабораторной",

    "встреча с родителями", "день рождения сестры", "семейный ужин",
    "поездка с детьми", "помощь маме", "звонок от бабушки",
    "семейные выходные", "забрать ребенка", "готовим вместе",

    "запись к врачу", "болит голова", "поход в спортзал",
    "диета и питание", "прием витаминов", "медицинский осмотр",
    "зубной врач", "анализы готовы", "самочувствие улучшилось",

    "просмотр фильма", "встреча с друзьями", "поход в кино",
    "чтение книги", "игра в футбол", "концерт любимой группы",
    "путешествие на выходные", "новая видеоигра", "прогулка в парке",

    "покупка продуктов", "оплата счетов", "накопления на отпуск",
    "банковская карта", "инвестиции в акции", "бюджет на месяц",
    "кредитный платеж", "покупка машины", "страховка дома",

    "срочное сообщение", "важная новость", "критическая ситуация",
    "неотложное дело", "приоритетная задача", "экстренный вызов",
    "внимание всем", "требует немедленного решения", "чрезвычайная ситуация"
  ]

  /** `[x] * n` */
  function Repeat<T>(x: T, n: nat): (r: seq<T>)
    ensures |r| == n && forall i :: 0 <= i < n ==> r[i] == x
  {
    seq(n, _ => x)
  }

  /** The label list exactly as it is built: seven `[label] * 9` blocks */
  const TrainLabels: seq<Label> :=
    Repeat("работа", 9) +
    Repeat("учеба", 9) +
    Repeat("семья", 9) +
    Repeat("здоровье", 9) +
    Repeat("досуг", 9) +
    Repeat("финансы", 9) +
    Repeat("важное", 9)

  /** `n` copies of each of `cs`, block after block */
  function Blocks<T>(cs: seq<T>, n: nat): seq<T>
  {
    if |cs| == 0 then [] else Repeat(cs[0], n) + Blocks(cs[1..], n)
  }

  ghost predicate Distinct<T>(s: seq<T>) {
    forall i, j :: 0 <= i < j < |s| ==> s[i] != s[j]
  }

  lemma {:induction false} BlocksLength<T>(cs: seq<T>, n: nat)
    ensures |Blocks(cs, n)| == |cs| * n
  {
    if |cs| > 0 {
      BlocksLength(cs[1..], n);
    }
  }

  /** Place `j` of block `k` holds the `k`-th label */
  lemma {:induction false} BlocksIndex<T>(cs: seq<T>, n: nat, k: nat, j: nat)
    requires k < |cs| && j < n
    ensures k * n + j < |Blocks(cs, n)| && Blocks(cs, n)[k * n + j] == cs[k]
  {
    BlocksLength(cs, n);
    if k > 0 {
      BlocksIndex(cs[1..], n, k - 1, j);
      assert k * n + j == n + ((k - 1) * n + j);
    }
  }

  /** Every label of `cs` occurs exactly `n` times, and nothing else occurs */
  lemma {:induction false} BlocksCount<T>(cs: seq<T>, n: nat, c: T)
    requires Distinct(cs)
    ensures multiset(Blocks(cs, n))[c] == if c in cs then n else 0
  {
    if |cs| > 0 {
      BlocksCount(cs[1..], n, c);
      RepeatCount(cs[0], n, c);
      assert c in cs ==> c == cs[0] || c in cs[1..];
      assert cs[0] !in cs[1..];
    }
  }

  lemma {:induction false} RepeatCount<T>(x: T, n: nat, c: T)
    ensures multiset(Repeat(x, n))[c] == if c == x then n else 0
  {
    if n > 0 {
      RepeatCount(x, n - 1, c);
      assert Repeat(x, n) == Repeat(x, n - 1) + [x];
    }
  }

  lemma TrainLabelsAreBlocks()
    ensures TrainLabels == Blocks(Categories, BlockSize)
  {
    var cs := Categories;
    assert Blocks(cs[6..], 9) == Repeat(cs[6], 9) by {
      assert Blocks(cs[7..], 9) == [];
    }
    assert Blocks(cs[5..], 9) == Repeat(cs[5], 9) + Blocks(cs[6..], 9);
    assert Blocks(cs[4..], 9) == Repeat(cs[4], 9) + Blocks(cs[5..], 9);
    assert Blocks(cs[3..], 9) == Repeat(cs[3], 9) + Blocks(cs[4..], 9);
    assert Blocks(cs[2..], 9) == Repeat(cs[2], 9) + Blocks(cs[3..], 9);
    assert Blocks(cs[1..], 9) == Repeat(cs[1], 9) + Blocks(cs[2..], 9);
    assert Blocks(cs, 9) == Repeat(cs[0], 9) + Blocks(cs[1..], 9);
  }

  lemma CategoriesDistinct()
    ensures Distinct(Categories)
  {
  }

  /** Texts and labels line up one to one: 63 of each */
  lemma TrainingSetAligned()
    ensures |TrainTexts| == |TrainLabels| == |Categories| * BlockSize == 63
  {
    TrainLabelsAreBlocks();
    BlocksLength(Categories, BlockSize);
  }

  /** Phrase `i` is labelled with the topic of its block of nine, each topic
      labels exactly nine phrases, and no other label is used */
  lemma TrainingLabels()
    ensures forall i :: 0 <= i < |TrainLabels| ==> TrainLabels[i] == Categories[i / BlockSize]
    ensures forall c :: multiset(TrainLabels)[c] == if c in Categories then BlockSize else 0
    ensures forall c :: c in TrainLabels <==> c in Categories
  {
    TrainLabelsAreBlocks();
    CategoriesDistinct();
    forall i | 0 <= i < |TrainLabels|
      ensures TrainLabels[i] == Categories[i / BlockSize]
    {
      BlocksIndex(Categories, BlockSize, i / BlockSize, i % BlockSize);
    }
    forall c
      ensures multiset(TrainLabels)[c] == if c in Categories then BlockSize else 0
    {
      BlocksCount(Categories, BlockSize, c);
    }
  }
}
