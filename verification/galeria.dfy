/** The photo gallery component: a cursor `fotoAtual` over a list of photos,
    moved by four buttons whose `disabled` guards keep it on a photo. A click
    on a disabled button, or on a button that is not on screen, does nothing. */
module Galeria {
  import opened Search

  datatype Botao = Primeira | Anterior | Proxima | Ultima

  datatype Galeria = Galeria(titulo: string, fotos: seq<string>, fotoAtual: int)

  /** What the component shows. */
  datatype Tela =
    | NenhumaFoto(titulo: string)
    | MostraFoto(titulo: string, src: string, numero: int, total: int, habilitados: set<Botao>)

  /** The cursor is on one of the photos. */
  predicate CursorValido(g: Galeria)
  {
    0 <= g.fotoAtual <= |g.fotos| - 1
  }

  /** The index of the last photo (`ultima`), -1 when there is none. */
  function UltimaFoto(g: Galeria): (i: int)
  {
    |g.fotos| - 1
  }

  /** The state `useState(0)` creates. */
  function Inicial(titulo: string, fotos: seq<string>): (g: Galeria)
    ensures g.fotoAtual == 0 && g.fotos == fotos
    ensures |fotos| > 0 ==> CursorValido(g)
  {
    Galeria(titulo, fotos, 0)
  }

  /** The `disabled` expression of each button. */
  predicate Desabilitado(g: Galeria, b: Botao)
  {
    match b
    case Primeira => g.fotoAtual == 0
    case Anterior => g.fotoAtual == 0
    case Proxima => g.fotoAtual == UltimaFoto(g)
    case Ultima => g.fotoAtual == UltimaFoto(g)
  }

  function VoltaParaPrimeira(g: Galeria): (h: Galeria)
  {
    g.(fotoAtual := 0)
  }

  function VoltaParaAnterior(g: Galeria): (h: Galeria)
  {
    g.(fotoAtual := g.fotoAtual - 1)
  }

  function VaiParaProxima(g: Galeria): (h: Galeria)
  {
    g.(fotoAtual := g.fotoAtual + 1)
  }

  function VaiParaUltima(g: Galeria): (h: Galeria)
  {
    g.(fotoAtual := UltimaFoto(g))
  }

  /** The new state after clicking `b`, or None when the click cannot happen:
      the buttons are only on screen when there are photos, and a disabled
      button ignores clicks. */
  function Clique(g: Galeria, b: Botao): (r: Option<Galeria>)
    ensures r.Some? <==> |g.fotos| > 0 && !Desabilitado(g, b)
    ensures r.Some? ==> r.value.fotos == g.fotos && r.value.titulo == g.titulo
    ensures r.Some? && b == Primeira ==> r.value.fotoAtual == 0
    ensures r.Some? && b == Anterior ==> r.value.fotoAtual == g.fotoAtual - 1
    ensures r.Some? && b == Proxima ==> r.value.fotoAtual == g.fotoAtual + 1
    ensures r.Some? && b == Ultima ==> r.value.fotoAtual == |g.fotos| - 1
    ensures r.Some? && CursorValido(g) ==> CursorValido(r.value)
  {
    if |g.fotos| == 0 || Desabilitado(g, b) then None
    else
      match b
      case Primeira => Some(VoltaParaPrimeira(g))
      case Anterior => Some(VoltaParaAnterior(g))
      case Proxima => Some(VaiParaProxima(g))
      case Ultima => Some(VaiParaUltima(g))
  }

  function Habilitados(g: Galeria): (bs: set<Botao>)
  {
    (if g.fotoAtual != 0 then {Primeira, Anterior} else {})
    + (if g.fotoAtual != UltimaFoto(g) then {Proxima, Ultima} else {})
  }

  function Renderiza(g: Galeria): (t: Tela)
    requires |g.fotos| == 0 || CursorValido(g)
    ensures t.NenhumaFoto? <==> |g.fotos| == 0
    ensures t.titulo == g.titulo
    ensures t.MostraFoto? ==>
      && t.src == g.fotos[g.fotoAtual]
      && t.numero == g.fotoAtual + 1 && 1 <= t.numero <= t.total == |g.fotos|
      && forall b :: b in t.habilitados <==> Clique(g, b).Some?
  {
    if |g.fotos| == 0 then NenhumaFoto(g.titulo)
    else MostraFoto(g.titulo, g.fotos[g.fotoAtual], g.fotoAtual + 1, |g.fotos|, Habilitados(g))
  }

  /** The state after a series of clicks; clicks that cannot happen are
      ignored. */
  function Navega(g: Galeria, cliques: seq<Botao>): (h: Galeria)
    decreases |cliques|
  {
    if |cliques| == 0 then g
    else
      var proxima := match Clique(g, cliques[0]) case None => g case Some(h) => h;
      Navega(proxima, cliques[1..])
  }

  /** Whatever is clicked, the cursor stays on a photo. */
  lemma {:induction false} NavegaMantemCursor(g: Galeria, cliques: seq<Botao>)
    requires CursorValido(g)
    ensures CursorValido(Navega(g, cliques))
    ensures Navega(g, cliques).fotos == g.fotos
    decreases |cliques|
  {
    if |cliques| > 0 {
      var proxima := match Clique(g, cliques[0]) case None => g case Some(h) => h;
      NavegaMantemCursor(proxima, cliques[1..]);
    }
  }

  /** From a fresh gallery with photos, every state reached is on a photo. */
  lemma CursorSempreValido(titulo: string, fotos: seq<string>, cliques: seq<Botao>)
    requires |fotos| > 0
    ensures CursorValido(Navega(Inicial(titulo, fotos), cliques))
  {
    NavegaMantemCursor(Inicial(titulo, fotos), cliques);
  }

  /** Without photos no button is on screen, so clicking changes nothing. */
  lemma {:induction false} SemFotosNadaMuda(g: Galeria, cliques: seq<Botao>)
    requires |g.fotos| == 0
    ensures Navega(g, cliques) == g
    ensures Renderiza(g) == NenhumaFoto(g.titulo)
    decreases |cliques|
  {
    if |cliques| > 0 {
      SemFotosNadaMuda(g, cliques[1..]);
    }
  }

  function Repete(b: Botao, k: nat): (r: seq<Botao>)
    ensures |r| == k
  {
    if k == 0 then [] else [b] + Repete(b, k - 1)
  }

  /** `k` clicks on "Próxima" move the cursor `k` photos on, as long as
      there are photos left. */
  lemma {:induction false} ProximaAvanca(g: Galeria, k: nat)
    requires CursorValido(g) && g.fotoAtual + k <= UltimaFoto(g)
    ensures Navega(g, Repete(Proxima, k)) == g.(fotoAtual := g.fotoAtual + k)
    decreases k
  {
    if k > 0 {
      var h := g.(fotoAtual := g.fotoAtual + 1);
      assert Clique(g, Proxima) == Some(h);
      ProximaAvanca(h, k - 1);
    }
  }

  /** Every photo can be reached from a fresh gallery. */
  lemma TodaFotoAlcancavel(titulo: string, fotos: seq<string>, k: nat)
    requires k < |fotos|
    ensures Navega(Inicial(titulo, fotos), Repete(Proxima, k)).fotoAtual == k
  {
    ProximaAvanca(Inicial(titulo, fotos), k);
  }
}
