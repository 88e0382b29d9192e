/** The broker interface the two processes share: the topic name and the
    shape of a message.  The broker client itself (connect, send, subscribe,
    retries) is not part of this model. */
module Kafka {

  import opened Wrappers

  /** The topic the producer publishes to and the consumer subscribes to. */
  const WeatherTopic: string := "weather-data"

  /** A message as a handler sees it; a message may carry no value. */
  datatype Message = Message(value: Option<string>)

  /** One `producer.send` call: a topic and its messages, in order. */
  datatype SendRequest = SendRequest(topic: string, messages: seq<Message>)
}
