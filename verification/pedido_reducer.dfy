/** The reducer of the base exercise's order: `adiciona` counts one more unit
    of a product, `limpa` empties the order. It works on a copy, so the state
    it is given is never changed (here every value is immutable). */
module PedidoReducer {
  import opened Search
  import opened Itens

  datatype Acao = Adiciona(produto: Produto) | Limpa

  /** Position `i` holds the first item for product `id`. */
  predicate PrimeiroDoProduto(itens: seq<ItemPedido>, id: int, i: int)
  {
    0 <= i < |itens| && itens[i].produto.id == id
    && forall j :: 0 <= j < i ==> itens[j].produto.id != id
  }

  function IndiceDoProduto(itens: seq<ItemPedido>, id: int): (r: Option<nat>)
    ensures r.Some? ==> PrimeiroDoProduto(itens, id, r.value)
    ensures r.None? <==> !TemProduto(itens, id)
  {
    FindIndex(itens, (e: ItemPedido) => e.produto.id == id)
  }

  function Reducer(estado: seq<ItemPedido>, acao: Acao): (r: seq<ItemPedido>)
    ensures acao.Limpa? ==> r == []
    ensures acao.Adiciona? && !TemProduto(estado, acao.produto.id) ==>
      r == estado + [ItemPedido(acao.produto, 1)]
    ensures acao.Adiciona? && TemProduto(estado, acao.produto.id) ==>
      && |r| == |estado|
      && exists i :: PrimeiroDoProduto(estado, acao.produto.id, i)
           && r[i] == ItemPedido(estado[i].produto, estado[i].quantidade + 1)
           && forall j :: 0 <= j < |r| && j != i ==> r[j] == estado[j]
  {
    match acao
    case Adiciona(produto) =>
      (match IndiceDoProduto(estado, produto.id)
       case Some(idx) => estado[idx := ItemPedido(estado[idx].produto, estado[idx].quantidade + 1)]
       case None => estado + [ItemPedido(produto, 1)])
    case Limpa => []
  }

  /** Adding a product counts exactly one more unit in all; the list grows
      by at most one item. */
  lemma {:induction false} AdicionaContaUmaUnidade(estado: seq<ItemPedido>, produto: Produto)
    ensures TotalQuantidade(Reducer(estado, Adiciona(produto))) == TotalQuantidade(estado) + 1
    ensures |estado| <= |Reducer(estado, Adiciona(produto))| <= |estado| + 1
  {
    match IndiceDoProduto(estado, produto.id)
    case Some(idx) =>
      TotaisUpdate(estado, idx, ItemPedido(estado[idx].produto, estado[idx].quantidade + 1));
    case None =>
      TotaisAppend(estado, ItemPedido(produto, 1));
  }

  /** Adding a product counts exactly one more unit of that product and
      leaves the other products' quantities alone. */
  lemma {:induction false} AdicionaContaOProduto(estado: seq<ItemPedido>, produto: Produto, id: int)
    ensures QuantidadeDoProduto(Reducer(estado, Adiciona(produto)), id)
         == QuantidadeDoProduto(estado, id) + (if id == produto.id then 1 else 0)
  {
    match IndiceDoProduto(estado, produto.id)
    case Some(idx) =>
      TotaisUpdate(estado, idx, ItemPedido(estado[idx].produto, estado[idx].quantidade + 1));
    case None =>
      TotaisAppend(estado, ItemPedido(produto, 1));
  }

  /** At most one item per product is kept by `adiciona`. */
  lemma AdicionaPreservaDistintos(estado: seq<ItemPedido>, produto: Produto)
    requires ProdutosDistintos(estado)
    ensures ProdutosDistintos(Reducer(estado, Adiciona(produto)))
    ensures TemProduto(Reducer(estado, Adiciona(produto)), produto.id)
  {
    var r := Reducer(estado, Adiciona(produto));
    if !TemProduto(estado, produto.id) {
      assert r[|estado|].produto.id == produto.id;
    } else {
      var i :| PrimeiroDoProduto(estado, produto.id, i) && r[i].produto == estado[i].produto
        && forall j :: 0 <= j < |r| && j != i ==> r[j] == estado[j];
      assert r[i].produto.id == produto.id;
    }
  }
}
