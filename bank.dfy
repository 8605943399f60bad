/** The static word bank and the question record of the quiz. */
module WordBank {

  /** One headword with its correct definition and its distractors. */
  datatype WordEntry = WordEntry(w: string, correct: string, opts: seq<string>)

  /** The entries filed under one difficulty key of the bank. */
  datatype Tier = Tier(difficulty: int, entries: seq<WordEntry>)

  /** A generated multiple-choice question. The random `id` of the source is
      not modelled. */
  datatype Question = Question(
    prompt: string,
    options: seq<string>,
    correctIndex: int,
    difficulty: int,
    word: string)

  /** The bank's tiers in the order `Object.keys` lists its integer keys:
      ascending. */
  function Bank(): seq<Tier>
  {
    [ Tier(1, [ WordEntry("stol", "sittmöbel", ["frukt", "fisk", "berg"]),
                WordEntry("hund", "djur", ["färg", "verktyg", "väder"]),
                WordEntry("glas", "dryckeskärl", ["kläder", "krydda", "maskin"]),
                WordEntry("bok", "läsning", ["mat", "fågel", "metall"]) ]),
      Tier(2, [ WordEntry("kust", "havsnära område", ["träd", "maskin", "stad"]),
                WordEntry("stjälk", "växtdel", ["djurart", "hushåll", "kyrka"]),
                WordEntry("karg", "utan växtlighet", ["blommande", "lyxig", "söt"]),
                WordEntry("mätt", "inte hungrig", ["arg", "snabb", "tung"]) ]),
      Tier(3, [ WordEntry("förnuft", "tänkandets förmåga", ["hunger", "färg", "ljud"]),
                WordEntry("förespråka", "tala för", ["förbjuda", "glömma", "förkasta"]),
                WordEntry("skiftning", "nyans", ["storm", "sjukdom", "frö"]),
                WordEntry("påtaglig", "tydlig", ["hemlig", "svag", "sporadisk"]) ]),
      Tier(4, [ WordEntry("ambivalent", "kluven", ["självklar", "ointresserad", "övertygad"]),
                WordEntry("idiosynkrasi", "särdrag", ["rutin", "tillfällighet", "standard"]),
                WordEntry("prediktera", "förutsäga", ["förhindra", "reparera", "betrakta"]),
                WordEntry("konciliant", "samförstående", ["fientlig", "arg", "oberörd"]) ]),
      Tier(5, [ WordEntry("obskurantism", "mörkläggning av kunskap", ["vetgirighet", "öppenhet", "lärdom"]),
                WordEntry("apokryfisk", "tvivelaktig äkthet", ["äkta", "laglig", "enkel"]),
                WordEntry("epistemologi", "kunskapsteori", ["växtlära", "sjukdomslära", "språklära"]),
                WordEntry("parsimonisk", "sparsam", ["slösaktig", "överflödig", "skrymmande"]) ]) ]
  }

  /** The bank flattened to (difficulty, entry) pairs, tier by tier: the order
      in which the sampler's nested loop visits it. */
  function Flat(bank: seq<Tier>): (r: seq<(int, WordEntry)>)
  {
    if bank == [] then []
    else Flat(bank[..|bank| - 1]) + TierEntries(bank[|bank| - 1])
  }

  function TierEntries(t: Tier): (r: seq<(int, WordEntry)>)
    ensures |r| == |t.entries|
    ensures forall k :: 0 <= k < |r| ==> r[k] == (t.difficulty, t.entries[k])
  {
    seq(|t.entries|, k requires 0 <= k < |t.entries| => (t.difficulty, t.entries[k]))
  }

  /** The headwords of a list of questions. */
  function Words(qs: seq<Question>): set<string>
  {
    set i | 0 <= i < |qs| :: qs[i].word
  }

  /** The headwords of the bank. */
  function BankWords(bank: seq<Tier>): set<string>
  {
    set p | p in Flat(bank) :: p.1.w
  }

  /** Flattening keeps each entry's tier difficulty, so bounds on the tiers'
      keys bound every flattened pair. */
  lemma {:induction false} FlatDifficulties(bank: seq<Tier>, lo: int, hi: int)
    requires forall t :: t in bank ==> lo <= t.difficulty <= hi
    ensures forall k :: 0 <= k < |Flat(bank)| ==> lo <= Flat(bank)[k].0 <= hi
  {
    if bank != [] {
      var init := bank[..|bank| - 1];
      assert forall t :: t in init ==> t in bank;
      FlatDifficulties(init, lo, hi);
    }
  }

  /** The bank's tiers are keyed 1 to 5. */
  lemma BankTiersInRange()
    ensures forall t :: t in Bank() ==> 1 <= t.difficulty <= 5
  {
  }
}
