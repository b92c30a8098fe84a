/** The retrieved passages and the external collaborators that produce them.
    Embedding, similarity search and text generation are not modelled: each
    collaborator is a function that returns a value or raises. */
module Documents {
  import opened Results

  /** A passage of the corpus as the vector store returns it. */
  datatype Document = Document(pageContent: string, metadata: map<string, string>)

  /** The configured retriever (`retriever.invoke`, top five by similarity). */
  type Retriever = string -> Result<seq<Document>>

  /** The retrieval-augmented chat chain (`RetrievalQA(...).run`), which
      answers a query with generated text. */
  type Llm = string -> Result<string>

  /** The vector store's `similarity_search(query, k)`. */
  type Search = (string, int) -> Result<seq<Document>>
}
