/** `get_text_embedding`: the sentence encoder's vector for the cleaned
    text, or the zero vector of the encoder's width when anything fails. */
module Embedding {
  import opened Outcomes
  import opened TextClean

  /** The width of an `all-MiniLM-L6-v2` sentence embedding */
  const Dim: nat := 384

  /** `np.zeros(384)` */
  function Zeros(n: nat): (r: seq<real>)
    ensures |r| == n && forall i :: 0 <= i < n ==> r[i] == 0.0
  {
    seq(n, _ => 0.0)
  }

  /** What the method returns for one answer of the encoder: the vector as
      it came, or 384 zeros when the encoder raised */
  function EmbeddingOrZero(out: Outcome<seq<real>>): (r: seq<real>)
    ensures out.Returned? ==> r == out.value
    ensures out.Raised? ==> |r| == Dim && forall i :: 0 <= i < |r| ==> r[i] == 0.0
  {
    out.GetOr(Zeros(Dim))
  }

  /** `get_text_embedding`: the encoder sees the cleaned text */
  function GetTextEmbedding(u: CharClasses, encoder: string -> Outcome<seq<real>>, text: string): (r: seq<real>)
    ensures var out := encoder(CleanText(u, text));
            out.Returned? ==> r == out.value
    ensures var out := encoder(CleanText(u, text));
            out.Raised? ==> r == Zeros(Dim)
  {
    EmbeddingOrZero(encoder(CleanText(u, text)))
  }

  /** An encoder whose vectors all have the model's width makes the method
      total in that width: a failure cannot be told apart by its shape */
  lemma GetTextEmbeddingWidth(u: CharClasses, encoder: string -> Outcome<seq<real>>, text: string)
    requires forall t :: encoder(t).Returned? ==> |encoder(t).value| == Dim
    ensures |GetTextEmbedding(u, encoder, text)| == Dim
  {
  }

  /** A nonzero answer comes from the encoder, computed on the cleaned text */
  lemma GetTextEmbeddingNonZero(u: CharClasses, encoder: string -> Outcome<seq<real>>, text: string)
    requires exists i :: 0 <= i < |GetTextEmbedding(u, encoder, text)| && GetTextEmbedding(u, encoder, text)[i] != 0.0
    ensures encoder(CleanText(u, text)) == Returned(GetTextEmbedding(u, encoder, text))
  {
  }
}
